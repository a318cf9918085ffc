/** The small list operations of `core_list_join.c`: find, reverse, remove and its undo. */
module ListOps {
  import opened MachineInts
  import opened ListOrder
  import opened ListMemory
  import opened ListSort

  // ----------------------------------------------------------------------- find

  /** Does node x match the probe: by index if that is not negative, else by data? */
  predicate Matches(m: Cells, x: nat, pidx: s16, pdata: u16)
    requires m.HasCell(x)
  {
    if pidx >= 0 then m.idx[m.info[x]] == pidx else Low(m.Data(x)) == pdata
  }

  /** The place of the first match in s, or |s|. */
  function FindAt(m: Cells, s: seq<nat>, pidx: s16, pdata: u16): (k: nat)
    requires m.Hold(s)
    ensures k <= |s| && (k < |s| ==> Matches(m, s[k], pidx, pdata))
    ensures forall i :: 0 <= i < k ==> !Matches(m, s[i], pidx, pdata)
  {
    if s == [] then 0 else if Matches(m, s[0], pidx, pdata) then 0 else 1 + FindAt(m, s[1..], pidx, pdata)
  }

  lemma {:induction false} FindAtUnique(m: Cells, s: seq<nat>, pidx: s16, pdata: u16, k: nat)
    requires m.Hold(s) && k <= |s|
    requires k < |s| ==> Matches(m, s[k], pidx, pdata)
    requires forall i :: 0 <= i < k ==> !Matches(m, s[i], pidx, pdata)
    ensures FindAt(m, s, pidx, pdata) == k
  {
    var f := FindAt(m, s, pidx, pdata);
    assert !(f < k) && !(k < f);
  }

  method CoreListFind(mem: Memory, list0: Ptr, pidx: s16, pdata: u16, ghost s: seq<nat>) returns (list: Ptr)
    requires IsList(mem.next, list0, s) && mem.View().Hold(s)
    ensures list == PtrAt(s, FindAt(mem.View(), s, pidx, pdata))
  {
    ViewIs(mem);
    ListAt(mem.next, mem.View(), list0, s, 0);
    SearchTurn(mem.View(), s, 0, pidx, pdata);
    hide *;
    list := list0;
    ghost var k, m := 0, mem.View();
    if pidx >= 0 {
      while list != NULL && mem.idx[mem.info[list]] != pidx
        invariant 0 <= k <= |s| && list == PtrAt(s, k) && NotBefore(m, s, k, pidx, pdata)
        invariant list != NULL ==> 0 <= list < |mem.next| && list < |mem.info| && mem.info[list] < |mem.idx|
        decreases |s| - k
      {
        ListAt(mem.next, m, list0, s, k);
        SearchTurn(m, s, k, pidx, pdata);
        list := mem.next[list];
        k := k + 1;
        ListAt(mem.next, m, list0, s, k);
      }
    } else {
      while list != NULL && mem.data16[mem.info[list]] % 0x100 != pdata
        invariant 0 <= k <= |s| && list == PtrAt(s, k) && NotBefore(m, s, k, pidx, pdata)
        invariant list != NULL ==> 0 <= list < |mem.next| && list < |mem.info| && mem.info[list] < |mem.data16|
        decreases |s| - k
      {
        ListAt(mem.next, m, list0, s, k);
        SearchTurn(m, s, k, pidx, pdata);
        list := mem.next[list];
        k := k + 1;
        ListAt(mem.next, m, list0, s, k);
      }
    }
    ListAt(mem.next, m, list0, s, k);
    SearchTurn(m, s, k, pidx, pdata);
  }

  /** No node before place k matches. */
  ghost predicate NotBefore(m: Cells, s: seq<nat>, k: nat, pidx: s16, pdata: u16)
    requires m.Hold(s) && k <= |s|
  {
    forall i :: 0 <= i < k ==> !Matches(m, s[i], pidx, pdata)
  }

  /** Where the pointer at place k leads. */
  lemma ListAt(next: seq<Ptr>, m: Cells, list: Ptr, s: seq<nat>, k: nat)
    requires IsList(next, list, s) && m.Hold(s) && k <= |s|
    ensures NULL == -1 && (PtrAt(s, k) == NULL <==> k == |s|) && PtrAt(s, 0) == list
    ensures k < |s| ==> PtrAt(s, k) == s[k] && s[k] < |next| && next[s[k]] == PtrAt(s, k + 1)
    ensures k < |s| ==> s[k] < |m.info| && m.info[s[k]] < |m.data16| && |m.idx| == |m.data16|
  {
    hide NoDup;
  }

  /** One turn of the search. */
  lemma SearchTurn(m: Cells, s: seq<nat>, k: nat, pidx: s16, pdata: u16)
    requires m.Hold(s) && k <= |s|
    ensures NotBefore(m, s, 0, pidx, pdata)
    ensures k == |s| && NotBefore(m, s, k, pidx, pdata) ==> FindAt(m, s, pidx, pdata) == k
    ensures k < |s| ==> s[k] < |m.info| && m.info[s[k]] < |m.data16| && |m.idx| == |m.data16|
    ensures k < |s| && NotBefore(m, s, k, pidx, pdata) ==>
      if (if pidx >= 0 then m.idx[m.info[s[k]]] == pidx else m.data16[m.info[s[k]]] % 0x100 == pdata)
      then FindAt(m, s, pidx, pdata) == k else NotBefore(m, s, k + 1, pidx, pdata)
  {
    if NotBefore(m, s, k, pidx, pdata) && (k == |s| || Matches(m, s[k], pidx, pdata)) {
      FindAtUnique(m, s, pidx, pdata, k);
    }
  }

  // -------------------------------------------------------------------- reverse

  function Reversed(s: seq<nat>): (r: seq<nat>)
    ensures |r| == |s| && multiset(r) == multiset(s)
    ensures forall i :: 0 <= i < |s| ==> r[i] == s[|s| - 1 - i]
  {
    if s == [] then [] else
      assert s == [s[0]] + s[1..];
      Reversed(s[1..]) + [s[0]]
  }

  /** `rev` is linked behind its head and `rest` is still as it was. */
  predicate Turning(next: seq<Ptr>, rev: seq<nat>, rest: seq<nat>) {
    Links(next, rev) && Links(next, rest) && NoDup(rest) && Disjoint(rest, rev)
  }

  lemma TurnOne(next: seq<Ptr>, rev: seq<nat>, rest: seq<nat>)
    requires Turning(next, rev, rest) && rest != []
    ensures 0 <= rest[0] < |next| && next[rest[0]] == PtrAt(rest[1..], 0)
    ensures Turning(next[rest[0] := PtrAt(rev, 0)], [rest[0]] + rev, rest[1..])
  {
    var e := rest[0];
    var next' := next[e := PtrAt(rev, 0)];
    var rev' := [e] + rev;
    forall k | 0 <= k < |rev'|
      ensures rev'[k] < |next'| && next'[rev'[k]] == PtrAt(rev', k + 1)
    {
      if k > 0 {
        assert rev'[k] == rev[k - 1] != e;
      }
    }
    assert Disjoint(rest[1..], rev');
    forall k | 0 <= k < |rest| - 1
      ensures rest[1..][k] < |next'| && next'[rest[1..][k]] == PtrAt(rest[1..], k + 1)
    {
      assert rest[1..][k] == rest[k + 1] != e;
    }
  }

  method CoreListReverse(mem: Memory, list0: Ptr, ghost s: seq<nat>) returns (r: Ptr)
    requires IsList(mem.next, list0, s)
    modifies mem`next
    ensures IsList(mem.next, r, Reversed(s))
    ensures SameOutside(s, old(mem.next), mem.next)
  {
    TurningStart(mem.next, s, list0);
    SameOutsideRefl(s, mem.next);
    ReversedPerm(s);
    hide *;
    var next: Ptr, list, tmp := NULL, list0, NULL;
    ghost var rev: seq<nat>, rest := [], s;
    while list != NULL
      invariant Turning(mem.next, rev, rest)
      invariant next == PtrAt(rev, 0) && list == PtrAt(rest, 0)
      invariant Reversed(s) == Reversed(rest) + rev
      invariant Within(s, rest) && SameOutside(s, old(mem.next), mem.next)
      decreases |rest|
    {
      PtrHead(rest);
      TurnOne(mem.next, rev, rest);
      TurnGhosts(s, rev, rest);
      tmp := mem.next[list];
      SameOutsideOne(s, old(mem.next), mem.next, list, next);
      mem.next := mem.next[list := next];
      next := list;
      list := tmp;
      rev, rest := [rest[0]] + rev, rest[1..];
    }
    r := next;
    PtrHead(rest);
    ReversedEnd(mem.next, s, rev, rest, r);
  }

  lemma ReversedPerm(s: seq<nat>)
    requires NoDup(s)
    ensures NoDup(Reversed(s)) && Reversed(s) == Reversed(s) + []
  {
    NoDupPerm(s, Reversed(s));
  }

  lemma TurnGhosts(s: seq<nat>, rev: seq<nat>, rest: seq<nat>)
    requires rest != [] && Within(s, rest)
    ensures rest[0] in s && Within(s, rest[1..])
    ensures Reversed(rest) + rev == Reversed(rest[1..]) + ([rest[0]] + rev)
    ensures PtrAt([rest[0]] + rev, 0) == rest[0]
  {
    hide *;
    TurnWithin(s, rest);
    ReversedTurn(rest);
    TurnRegroup(Reversed(rest[1..]), rest[0], rev);
  }

  lemma ReversedTurn(rest: seq<nat>)
    requires rest != []
    ensures Reversed(rest) == Reversed(rest[1..]) + [rest[0]]
  {
  }

  lemma TurnRegroup(a: seq<nat>, x: nat, b: seq<nat>)
    ensures a + [x] + b == a + ([x] + b) && PtrAt([x] + b, 0) == x
  {
  }

  lemma TurnWithin(s: seq<nat>, rest: seq<nat>)
    requires rest != [] && Within(s, rest)
    ensures rest[0] in s && Within(s, rest[1..])
  {
  }

  lemma ReversedEnd(next: seq<Ptr>, s: seq<nat>, rev: seq<nat>, rest: seq<nat>, r: Ptr)
    requires rest == [] && Reversed(s) == Reversed(rest) + rev && Turning(next, rev, rest)
    requires r == PtrAt(rev, 0) && NoDup(Reversed(s))
    ensures IsList(next, r, Reversed(s))
  {
    hide NoDup, Links;
    assert Reversed(rest) + rev == rev;
  }

  lemma TurningStart(next: seq<Ptr>, s: seq<nat>, list: Ptr)
    requires IsList(next, list, s)
    ensures Turning(next, [], s) && Within(s, s) && list == PtrAt(s, 0) && NULL == PtrAt([], 0) && NoDup(s)
  {
  }

  lemma SameOutsideOne(s: seq<nat>, n0: seq<Ptr>, n1: seq<Ptr>, x: int, p: Ptr)
    requires SameOutside(s, n0, n1) && x in s && 0 <= x < |n1|
    ensures SameOutside(s, n0, n1[x := p])
  {
  }

  // ----------------------------------------------------------------- remove, undo

  /** The list without the node behind place i. */
  function WithoutNext(s: seq<nat>, i: nat): (r: seq<nat>)
    requires i + 1 < |s|
    ensures |r| == |s| - 1
  {
    s[..i + 1] + s[i + 2..]
  }

  /** Two nodes exchange their cells. */
  function Swapped(info: seq<nat>, x: nat, y: nat): (r: seq<nat>)
    requires x < |info| && y < |info|
    ensures |r| == |info| && r[x] == info[y] && r[y] == info[x]
    ensures forall k :: 0 <= k < |info| && k != x && k != y ==> r[k] == info[k]
  {
    info[x := info[y]][y := info[x]]
  }

  /** Removes the item's data by moving the next node's data over and unlinking that
      node, for any item but the last. */
  method CoreListRemove(mem: Memory, item: Ptr, ghost list: Ptr, ghost s: seq<nat>, ghost i: nat) returns (ret: Ptr)
    requires i + 1 < |s| && IsList(mem.next, list, s) && mem.View().Hold(s) && item == s[i]
    modifies mem`next, mem`info
    ensures ret == s[i + 1]
    ensures s[i] < |mem.next| && s[i + 1] < |mem.next| && s[i] < |mem.info| && s[i + 1] < |mem.info|
    ensures IsList(mem.next, list, WithoutNext(s, i))
    ensures |old(mem.info)| == |mem.info| && |old(mem.next)| == |mem.next|
    ensures mem.info == Swapped(old(mem.info), s[i], s[i + 1])
    ensures mem.next == old(mem.next)[s[i] := PtrAt(s, i + 2)][s[i + 1] := NULL]
  {
    assert s[i] < |mem.info| && s[i + 1] < |mem.info|;
    NextOf(mem.next, list, s, i);
    RemovedLinks(mem.next, list, s, i);
    hide IsList, Cells.Hold, WithoutNext, PtrAt;
    ret := mem.next[item];
    var tmp := mem.info[item];
    mem.info := mem.info[item := mem.info[ret]];
    mem.info := mem.info[ret := tmp];
    mem.next := mem.next[item := mem.next[mem.next[item]]];
    mem.next := mem.next[ret := NULL];
  }

  lemma NextOf(next: seq<Ptr>, list: Ptr, s: seq<nat>, i: nat)
    requires i + 1 < |s| && IsList(next, list, s)
    ensures s[i] < |next| && s[i + 1] < |next| && s[i] != s[i + 1]
    ensures next[s[i]] == s[i + 1] && next[s[i + 1]] == PtrAt(s, i + 2)
  {
    assert s[i + 1] < |next| && next[s[i]] == PtrAt(s, i + 1) && next[s[i + 1]] == PtrAt(s, i + 2);
  }

  lemma RemovedLinks(next: seq<Ptr>, list: Ptr, s: seq<nat>, i: nat)
    requires i + 1 < |s| && IsList(next, list, s)
    ensures s[i] < |next| && s[i + 1] < |next|
    ensures IsList(next[s[i] := PtrAt(s, i + 2)][s[i + 1] := NULL], list, WithoutNext(s, i))
  {
    NextOf(next, list, s, i);
    var t, next' := WithoutNext(s, i), next[s[i] := PtrAt(s, i + 2)][s[i + 1] := NULL];
    forall k | 0 <= k < |t|
      ensures t[k] < |next'| && next'[t[k]] == PtrAt(t, k + 1)
    {
      RemovedLink(next, list, s, i, k);
    }
  }

  lemma RemovedLink(next: seq<Ptr>, list: Ptr, s: seq<nat>, i: nat, k: nat)
    requires i + 1 < |s| && IsList(next, list, s) && s[i] < |next| && s[i + 1] < |next|
    requires k < |WithoutNext(s, i)|
    ensures var t, next' := WithoutNext(s, i), next[s[i] := PtrAt(s, i + 2)][s[i + 1] := NULL];
      t[k] < |next'| && next'[t[k]] == PtrAt(t, k + 1)
  {
    var j := if k <= i then k else k + 1;
    WithoutNextAt(s, i, k);
    Linked(next, list, s, j);
    DistinctAt(s, i, j);
    DistinctAt(s, i + 1, j);
    DistinctAt(s, i, i + 1);
    hide WithoutNext, IsList, PtrAt;
  }

  lemma WithoutNextAt(s: seq<nat>, i: nat, k: nat)
    requires i + 1 < |s| && k < |s| - 1
    ensures WithoutNext(s, i)[k] == s[if k <= i then k else k + 1]
    ensures PtrAt(WithoutNext(s, i), k + 1) == PtrAt(s, if k < i then k + 1 else k + 2)
  {
  }

  lemma Linked(next: seq<Ptr>, list: Ptr, s: seq<nat>, k: nat)
    requires IsList(next, list, s) && k < |s|
    ensures s[k] < |next| && next[s[k]] == PtrAt(s, k + 1) && NoDup(s)
  {
  }

  lemma DistinctAt(s: seq<nat>, a: nat, b: nat)
    requires NoDup(s) && a < |s| && b < |s|
    ensures s[a] == s[b] <==> a == b
  {
  }

  /** Undoes the removal: links the node back and exchanges the cells again. */
  method CoreListUndoRemove(mem: Memory, itemRemoved: Ptr, itemModified: Ptr) returns (r: Ptr)
    requires 0 <= itemRemoved < |mem.next| && 0 <= itemModified < |mem.next|
    requires itemRemoved < |mem.info| && itemModified < |mem.info|
    modifies mem`next, mem`info
    ensures r == itemRemoved
    ensures mem.info == Swapped(old(mem.info), itemRemoved, itemModified)
    ensures mem.next == old(mem.next)[itemRemoved := old(mem.next)[itemModified]][itemModified := itemRemoved]
  {
    var tmp := mem.info[itemRemoved];
    mem.info := mem.info[itemRemoved := mem.info[itemModified]];
    mem.info := mem.info[itemModified := tmp];
    mem.next := mem.next[itemRemoved := mem.next[itemModified]];
    mem.next := mem.next[itemModified := itemRemoved];
    r := itemRemoved;
  }

  /** Remove followed by its undo leaves links and cell pointers as they were. */
  lemma RemoveUndone(next: seq<Ptr>, info: seq<nat>, list: Ptr, s: seq<nat>, i: nat)
    requires i + 1 < |s| && IsList(next, list, s) && s[i] < |info| && s[i + 1] < |info|
    ensures s[i] < |next| && s[i + 1] < |next|
    ensures var n1 := next[s[i] := PtrAt(s, i + 2)][s[i + 1] := NULL];
      n1[s[i + 1] := n1[s[i]]][s[i] := s[i + 1]] == next
    ensures Swapped(Swapped(info, s[i], s[i + 1]), s[i + 1], s[i]) == info
  {
    NextOf(next, list, s, i);
  }
}
