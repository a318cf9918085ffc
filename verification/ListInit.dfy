/** Building the list in its memory block: `core_list_insert_new` and `core_list_init`. */
module ListInit {
  import opened MachineInts
  import opened ListOrder
  import opened ListMemory
  import opened ListCompare
  import opened ListSort
  import opened ListBench

  // ------------------------------------------------------------------- insertion

  /** s with x behind place i. */
  function InsertedAt(s: seq<nat>, i: nat, x: nat): (r: seq<nat>)
    requires i < |s|
    ensures |r| == |s| + 1
  {
    s[..i + 1] + [x] + s[i + 1..]
  }

  lemma InsertedNoDup(s: seq<nat>, i: nat, x: nat)
    requires NoDup(s) && i < |s| && x !in s
    ensures NoDup(InsertedAt(s, i, x))
  {
    assert NoDup([x] + s);
    assert s == s[..i + 1] + s[i + 1..];
    NoDupPerm([x] + s, InsertedAt(s, i, x));
  }

  lemma InsertedPlaces(s: seq<nat>, i: nat, x: nat, k: nat)
    requires i < |s|
    ensures PtrAt(InsertedAt(s, i, x), k) == if k <= i then PtrAt(s, k) else if k == i + 1 then x else PtrAt(s, k - 1)
    ensures k <= |s| ==> InsertedAt(s, i, x)[k] == PtrAt(InsertedAt(s, i, x), k)
  {
  }

  lemma LinkedAt(next: seq<Ptr>, list: Ptr, s: seq<nat>, k: nat)
    requires IsList(next, list, s) && k < |s|
    ensures s[k] < |next| && next[s[k]] == PtrAt(s, k + 1) && PtrAt(s, k) == s[k] && PtrAt(s, 0) == list && NoDup(s)
    ensures forall j :: 0 <= j < |s| && j != k ==> s[j] != s[k]
  {
  }

  lemma InsertedLinkAt(next: seq<Ptr>, list: Ptr, s: seq<nat>, i: nat, x: nat, k: nat)
    requires IsList(next, list, s) && i < |s| && x < |next| && x !in s && k <= |s|
    ensures s[i] < |next|
    ensures var t, n := InsertedAt(s, i, x), next[x := next[s[i]]][s[i] := x];
      t[k] < |n| && n[t[k]] == PtrAt(t, k + 1)
  {
    LinkedAt(next, list, s, i);
    if k <= i {
      LinkedAt(next, list, s, k);
    } else if k > i + 1 {
      LinkedAt(next, list, s, k - 1);
    }
    InsertedPlaces(s, i, x, k);
    InsertedPlaces(s, i, x, k + 1);
    hide *;
    assert forall j :: 0 <= j < |s| ==> s[j] != x;
  }

  /** Linking a new node in behind s[i]. */
  lemma InsertedLinks(next: seq<Ptr>, list: Ptr, s: seq<nat>, i: nat, x: nat)
    requires IsList(next, list, s) && i < |s| && x < |next| && x !in s
    ensures s[i] < |next|
    ensures IsList(next[x := next[s[i]]][s[i] := x], list, InsertedAt(s, i, x))
  {
    LinkedAt(next, list, s, i);
    InsertedPlaces(s, i, x, 0);
    InsertedNoDup(s, i, x);
    hide *;
    var t, n := InsertedAt(s, i, x), next[x := next[s[i]]][s[i] := x];
    forall k | 0 <= k < |t|
      ensures t[k] < |n| && n[t[k]] == PtrAt(t, k + 1)
    {
      InsertedLinkAt(next, list, s, i, x, k);
    }
    IsListIntro(n, list, t);
  }

  /** Takes the next node and cell of the block, if both are left, and links the node
      in behind place i of the list. */
  method CoreListInsertNew(mem: Memory, insertPoint: Ptr, data16: u16, idx: s16, memblock: nat, datablock: nat,
                           memblockEnd: nat, datablockEnd: nat, ghost list: Ptr, ghost s: seq<nat>, ghost i: nat)
    returns (newitem: Ptr, memblock': nat, datablock': nat)
    requires memblockEnd <= |mem.next| && memblockEnd <= |mem.info|
    requires datablockEnd <= |mem.data16| == |mem.idx|
    requires IsList(mem.next, list, s) && i < |s| && insertPoint == s[i] && memblock !in s
    modifies mem
    ensures |mem.next| == |old(mem.next)| && |mem.info| == |old(mem.info)|
      && |mem.data16| == |mem.idx| == |old(mem.data16)|
    ensures if memblock + 1 < memblockEnd && datablock + 1 < datablockEnd then
        && newitem == memblock && memblock' == memblock + 1 && datablock' == datablock + 1
        && IsList(mem.next, list, InsertedAt(s, i, memblock))
        && mem.info == old(mem.info)[memblock := datablock]
        && mem.data16 == old(mem.data16)[datablock := data16] && mem.idx == old(mem.idx)[datablock := idx]
      else
        && newitem == NULL && memblock' == memblock && datablock' == datablock
        && mem.next == old(mem.next) && mem.info == old(mem.info) && mem.data16 == old(mem.data16)
          && mem.idx == old(mem.idx)
  {
    newitem, memblock', datablock' := NULL, memblock, datablock;
    if memblock' + 1 >= memblockEnd {
      return;
    }
    if datablock' + 1 >= datablockEnd {
      return;
    }
    InsertedLinks(mem.next, list, s, i, memblock);
    newitem := memblock';
    memblock' := memblock' + 1;
    mem.next := mem.next[newitem := mem.next[insertPoint]];
    mem.next := mem.next[insertPoint := newitem];
    mem.info := mem.info[newitem := datablock'];
    datablock' := datablock' + 1;
    var cell := mem.info[newitem];
    mem.data16 := mem.data16[cell := data16];
    mem.idx := mem.idx[cell := idx];
  }

  // ---------------------------------------------------------------------- values

  /** The number of nodes and of cells the block is divided into. */
  function BlockItems(blksize: u32): int {
    blksize / 20 - 2
  }

  /** Nodes of 8 bytes and cells of 4 fit the block; with 20 bytes for each, as many as on a
      machine with 64-bit pointers, there would be room for two more, but not for three. */
  lemma BlockFits(blksize: u32)
    ensures 8 * BlockItems(blksize) + 4 * BlockItems(blksize) <= blksize
    ensures 20 * (BlockItems(blksize) + 2) <= blksize < 20 * (BlockItems(blksize) + 3)
  {
  }

  /** The data of the i-th item: a 7-bit pattern in both bytes. */
  function ItemData(seed: s16, i: nat): (d: u16)
    ensures Low(d) == High(d) && Low(d) < 0x80
  {
    var datpat := Xor(seed % 0x1_0000, i % 0x1_0000) % 0x10;
    var dat := datpat * 8 + i % 8;
    dat * 0x100 + dat
  }

  /** Bits 0 to 2 of an item, which choose the operation, are those of its number; bits 3 to 6 are
      the low bits of seed and number, exclusive-ored; bit 7 is clear; and the upper byte has the
      same bits. */
  lemma ItemBits(seed: s16, i: nat, k: nat)
    requires k < 8
    ensures Bit(ItemData(seed, i), k) ==
      if k < 3 then Bit(i, k) else if k < 7 then (Bit(seed, k - 3) + Bit(i, k - 3)) % 2 else 0
    ensures Bit(ItemData(seed, i), 8 + k) == Bit(ItemData(seed, i), k)
  {
    var p := Xor(seed % 0x1_0000, i % 0x1_0000) % 0x10;
    var dat := p * 8 + i % 8;
    ItemBytes(seed, i, p, dat);
    BytePowers();
    hide *;
    BitShift(dat * 0x100 + dat, 8, k);
    BitMod(dat * 0x100 + dat, 8, k);
    if k < 3 {
      BitMod(dat, 3, k);
      BitMod(i, 3, k);
    } else if k < 7 {
      BitShift(dat, 3, k - 3);
      BitMod(Xor(seed % 0x1_0000, i % 0x1_0000), 4, k - 3);
      BitXor(seed % 0x1_0000, i % 0x1_0000, k - 3);
      BitMod(seed, 16, k - 3);
      BitMod(i, 16, k - 3);
    } else {
      BitShift(dat, k, 0);
      BitHalve(dat / 0x80, 0);
    }
  }

  lemma ItemBytes(seed: s16, i: nat, p: nat, dat: nat)
    requires p == Xor(seed % 0x1_0000, i % 0x1_0000) % 0x10 && dat == p * 8 + i % 8
    ensures ItemData(seed, i) == dat * 0x100 + dat && dat / 8 == p && dat % 8 == i % 8 && dat / 0x80 == 0
    ensures (dat * 0x100 + dat) / 0x100 == dat && (dat * 0x100 + dat) % 0x100 == dat
  {
    hide Xor;
  }

  lemma BytePowers()
    ensures Pow2(3) == 8 && Pow2(4) == 0x10 && Pow2(7) == 0x80 && Pow2(8) == 0x100 && Pow2(16) == 0x1_0000
  {
    Pow2Values();
    assert Pow2(7) == 8 * Pow2(4);
  }

  /** The data of node x: the head's, the sentinel's, or an item's; always its own backup. */
  function NodeData(seed: s16, x: nat): (d: u16)
    ensures Low(d) == High(d)
  {
    if x == 0 then 0x8080 else if x == 1 then 0xffff else ItemData(seed, x - 2)
  }

  /** Head and sentinel have their values cached from the start, the least and the greatest there
      are, so a comparison by data computes nothing for them. */
  lemma EndNodes(seed: s16, d: u16, i: s16)
    ensures Cached(NodeData(seed, 0)) && Cached(NodeData(seed, 1))
    ensures KeyOf(CmpComplex, NodeData(seed, 0), i) <= KeyOf(CmpComplex, d, i) <= KeyOf(CmpComplex, NodeData(seed, 1),
      i)
  {
    assert Cached(0x8080) && Cached(0xffff);
  }

  /** The index given to the node at place p: in order for the first fifth, then mixed. */
  function ItemIndex(size: nat, seed: s16, p: nat): s16 {
    if p < size / 5 then ToS16(p) else MixedIndex(seed, p)
  }

  /** 0x3fff & ((((p + 1) & 7) << 8) | (ee_u16)(p ^ seed)) */
  function MixedIndex(seed: s16, p: nat): (i: s16)
    ensures 0 <= i <= 0x3fff
  {
    Or((p + 1) % 8 * 0x100, Xor(p % 0x1_0000, seed % 0x1_0000)) % 0x4000
  }

  /** m, m-1, ..., 1 */
  function Desc(m: nat): (s: seq<nat>)
    ensures |s| == m && forall i :: 0 <= i < m ==> s[i] == m - i
  {
    if m == 0 then [] else [m] + Desc(m - 1)
  }

  /** The list after k nodes have been taken: the head, then the newest first, and
      the sentinel, node 1, last. */
  function Built(k: nat): (s: seq<nat>)
    requires k >= 1
    ensures |s| == k && s[0] == 0 && forall i :: 1 <= i < k ==> s[i] == k - i
  {
    [0] + Desc(k - 1)
  }

  lemma BuiltInsert(k: nat)
    requires k >= 1
    ensures InsertedAt(Built(k), 0, k) == Built(k + 1) && k !in Built(k)
  {
  }

  // ------------------------------------------------------------------- the build

  /** k nodes taken: node x points at cell x, which holds its data. */
  ghost predicate Building(next: seq<Ptr>, m: Cells, size: nat, seed: s16, k: nat) {
    && 1 <= k < size && |next| >= size && |m.info| >= size && |m.data16| == |m.idx| >= size
    && IsList(next, 0, Built(k))
    && (forall x :: 0 <= x < k ==> m.info[x] == x && m.data16[x] == NodeData(seed, x))
    && m.idx[0] == 0 && (k >= 2 ==> m.idx[1] == 0x7fff)
  }

  method TakeItem(mem: Memory, size: nat, seed: s16, k: nat, data16: u16, idx: s16) returns (newitem: Ptr, k': nat)
    requires size >= 3 && Building(mem.next, mem.View(), size, seed, k)
    requires (k + 1 < size ==> data16 == NodeData(seed, k)) && (k == 1 ==> idx == 0x7fff)
    modifies mem
    ensures k' == if k + 1 < size then k + 1 else k
    ensures Building(mem.next, mem.View(), size, seed, k')
    ensures |mem.next| == |old(mem.next)| && |mem.info| == |old(mem.info)| && |mem.data16| == |old(mem.data16)|
  {
    BuiltInsert(k);
    hide IsList, NoDup, Links, InsertedAt, NodeData;
    var datablock;
    newitem, k', datablock := CoreListInsertNew(mem, 0, data16, idx, k, k, size, size, 0, Built(k), 0);
  }

  method BuildList(mem: Memory, size: nat, seed: s16)
    requires size >= 3 && |mem.next| >= size && |mem.info| >= size && |mem.data16| == |mem.idx| >= size
    modifies mem
    ensures Building(mem.next, mem.View(), size, seed, size - 1)
    ensures |mem.next| == |old(mem.next)| && |mem.info| == |old(mem.info)| && |mem.data16| == |old(mem.data16)|
  {
    mem.next := mem.next[0 := NULL];
    mem.info := mem.info[0 := 0];
    mem.idx := mem.idx[mem.info[0] := 0];
    mem.data16 := mem.data16[mem.info[0] := 0x8080];
    var newitem, k := NULL, 1;
    assert Building(mem.next, mem.View(), size, seed, 1);
    newitem, k := TakeItem(mem, size, seed, k, 0xffff, 0x7fff);
    var i := 0;
    hide Building, ItemData;
    while i < size
      invariant 0 <= i <= size && k == if i + 2 < size then i + 2 else size - 1
      invariant Building(mem.next, mem.View(), size, seed, k)
      invariant |mem.next| == |old(mem.next)| && |mem.info| == |old(mem.info)| && |mem.data16| == |old(mem.data16)|
    {
      newitem, k := TakeItem(mem, size, seed, k, ItemData(seed, i), 0x7fff);
      i := i + 1;
    }
  }

  /** The nodes between head and sentinel have their indices. */
  ghost predicate Indexed(m: Cells, size: nat, seed: s16, p: nat) {
    |m.idx| >= size && forall q :: 1 <= q < p && q < size - 2 ==> m.idx[size - 1 - q] == ItemIndex(size, seed, q)
  }

  /** The indexing loop. */
  method IndexList(mem: Memory, size: nat, seed: s16)
    requires size >= 3 && Building(mem.next, mem.View(), size, seed, size - 1)
    modifies mem`idx
    ensures Building(mem.next, mem.View(), size, seed, size - 1) && Indexed(mem.View(), size, seed, size)
    ensures |mem.idx| == |old(mem.idx)|
  {
    hide IsList, NoDup, ItemIndex, NodeData;
    ghost var s := Built(size - 1);
    PlaceAt(mem.next, s, size, 1);
    PlaceAt(mem.next, s, size, 0);
    var finder, i := mem.next[0], 1;
    while mem.next[finder] != NULL
      invariant 1 <= i <= size - 2 && finder == s[i] && 0 <= finder < |mem.next|
      invariant Building(mem.next, mem.View(), size, seed, size - 1) && Indexed(mem.View(), size, seed, i)
      invariant |mem.idx| == |old(mem.idx)|
      decreases size - i
    {
      PlaceAt(mem.next, s, size, i);
      mem.idx := mem.idx[mem.info[finder] := ItemIndex(size, seed, i)];
      i := i + 1;
      finder := mem.next[finder];
      PlaceAt(mem.next, s, size, i);
    }
    PlaceAt(mem.next, s, size, i);
  }

  lemma PlaceAt(next: seq<Ptr>, s: seq<nat>, size: nat, i: nat)
    requires size >= 3 && s == Built(size - 1) && IsList(next, 0, s) && i < size - 1
    ensures s[i] == (if i == 0 then 0 else size - 1 - i) && 0 <= s[i] < |next|
    ensures i + 1 < size - 1 ==> next[s[i]] == s[i + 1]
    ensures i + 1 == size - 1 <==> next[s[i]] == NULL
  {
    assert next[s[i]] == PtrAt(s, i + 1);
  }

  // -------------------------------------------------------------------- the whole

  /** What `core_list_init` hands over: nodes 0 .. size-2, each on its own cell with its data
      and index, sorted by index, equal indices in the order of the build. */
  ghost predicate Initialized(next: seq<Ptr>, m: Cells, size: nat, seed: s16, list: Ptr, s: seq<nat>) {
    && size >= 3 && |s| == size - 1 && IsList(next, list, s) && m.Hold(s)
    && multiset(s) == multiset(Built(size - 1))
    && StablySorted(m, CmpIdx, Built(size - 1), s)
    && (forall x :: 0 <= x < size - 1 ==> m.HasCell(x) && m.info[x] == x && m.data16[x] == NodeData(seed, x))
    && Indexed(m, size, seed, size) && m.idx[0] == 0 && m.idx[1] == 0x7fff
  }

  method CoreListInit(mem: Memory, blksize: u32, seed: s16, ghost env: Env) returns (list: Ptr, ghost s: seq<nat>)
    requires var size := BlockItems(blksize);
      size >= 3 && |mem.next| >= size && |mem.info| >= size && |mem.data16| == |mem.idx| >= size
    modifies mem
    ensures BlockItems(blksize) >= 3 && Initialized(mem.next, mem.View(), BlockItems(blksize), seed, list, s)
  {
    var size := blksize / 20 - 2;
    BuildList(mem, size, seed);
    IndexList(mem, size, seed);
    ghost var b := Built(size - 1);
    ghost var m, n0 := mem.View(), mem.next;
    BuildingHolds(mem.next, m, size, seed);
    hide *;
    ghost var passes;
    list, s, passes := Mergesort(mem, 0, CmpIdx, null, b, env);
    ViewIs(mem);
    CellsView(m, mem.data16);
    InitializedIs(n0, mem.next, m, mem.View(), size, seed, list, s);
  }

  lemma BuildingHolds(next: seq<Ptr>, m: Cells, size: nat, seed: s16)
    requires size >= 3 && Building(next, m, size, seed, size - 1)
    ensures m.Hold(Built(size - 1)) && IsList(next, 0, Built(size - 1))
    ensures Built(size - 1) != []
    ensures forall env: Env :: Serves(CmpIdx, null, env)
    ensures m == Cells(m.info, m.data16, m.idx)
  {
    var b := Built(size - 1);
    forall k | 0 <= k < |b|
      ensures b[k] < |m.info| && m.info[b[k]] < |m.data16|
    {
      assert b[k] < size - 1;
    }
  }

  /** Sorting by index leaves the data alone: every word already equals its backup. */
  lemma InitializedIs(n0: seq<Ptr>, next: seq<Ptr>, m: Cells, m': Cells, size: nat, seed: s16, list: Ptr, s: seq<nat>)
    requires size >= 3 && Building(n0, m, size, seed, size - 1) && Indexed(m, size, seed, size)
    requires m'.info == m.info && m'.idx == m.idx && AllEvolved(CmpIdx, false, m.data16, m'.data16)
    requires IsList(next, list, s) && multiset(s) == multiset(Built(size - 1)) && |s| == size - 1 && m'.Hold(s)
    requires StablySorted(m', CmpIdx, Built(size - 1), s)
    ensures Initialized(next, m', size, seed, list, s)
  {
    hide IsList, StablySorted, Cells.Hold, NodeData;
    forall x | 0 <= x < size - 1
      ensures m'.HasCell(x) && m'.info[x] == x && m'.data16[x] == NodeData(seed, x)
    {
      assert Evolved(CmpIdx, false, m.data16[x], m'.data16[x]);
    }
  }

  /** Node of place q in the build, and every node's place. */
  lemma PlaceOf(size: nat, x: nat)
    requires size >= 3 && x < size - 1
    ensures Built(size - 1)[if x == 0 then 0 else size - 1 - x] == x
  {
  }

  lemma InOrder(size: nat, s: seq<nat>, x: nat)
    requires size >= 3 && x < size - 1 && multiset(s) == multiset(Built(size - 1))
    ensures x in s
  {
    PlaceOf(size, x);
    assert x in multiset(Built(size - 1));
  }

  lemma NodesInRange(size: nat, s: seq<nat>)
    requires size >= 3 && multiset(s) == multiset(Built(size - 1))
    ensures forall k :: 0 <= k < |s| ==> s[k] < size - 1
  {
    forall k | 0 <= k < |s|
      ensures s[k] < size - 1
    {
      assert s[k] in multiset(Built(size - 1));
    }
  }

  /** The index of node x: the head's, the sentinel's, or the one of its place. */
  function IndexOf(size: nat, seed: s16, x: nat): s16
    requires x < size - 1
  {
    if x == 0 then 0 else if x == 1 then 0x7fff else ItemIndex(size, seed, size - 1 - x)
  }

  lemma NodeIndex(next: seq<Ptr>, m: Cells, size: nat, seed: s16, list: Ptr, s: seq<nat>, x: nat)
    requires Initialized(next, m, size, seed, list, s) && x < size - 1
    ensures m.HasCell(x) && m.Key(CmpIdx, x) == IndexOf(size, seed, x)
  {
    hide IsList, StablySorted, ItemIndex;
    if x >= 2 {
      assert m.idx[size - 1 - (size - 1 - x)] == ItemIndex(size, seed, size - 1 - x);
    }
  }

  lemma InitializedParts(next: seq<Ptr>, m: Cells, size: nat, seed: s16, list: Ptr, s: seq<nat>)
    requires Initialized(next, m, size, seed, list, s)
    ensures size >= 3 && |s| == size - 1 && IsList(next, list, s) && list == s[0]
    ensures multiset(s) == multiset(Built(size - 1)) && StablySorted(m, CmpIdx, Built(size - 1), s)
  {
  }

  lemma HeadFirst(next: seq<Ptr>, m: Cells, size: nat, seed: s16, list: Ptr, s: seq<nat>)
    requires Initialized(next, m, size, seed, list, s) && size / 5 <= 0x8000
    ensures list == 0 && s[0] == 0
  {
    InitializedParts(next, m, size, seed, list, s);
    hide *;
    NodesInRange(size, s);
    InOrder(size, s, 0);
    var i :| 0 <= i < |s| && s[i] == 0;
    BuiltRanks(size, s[0]);
    NodeIndex(next, m, size, seed, list, s, 0);
    NodeIndex(next, m, size, seed, list, s, s[0]);
    IndexRange(size, seed, s[0]);
    SortedPair(m, Built(size - 1), s, 0, i);
  }

  lemma SentinelLast(next: seq<Ptr>, m: Cells, size: nat, seed: s16, list: Ptr, s: seq<nat>)
    requires Initialized(next, m, size, seed, list, s) && size / 5 <= 0x8000
    ensures s[|s| - 1] == 1
  {
    hide *;
    InitializedParts(next, m, size, seed, list, s);
    NodesInRange(size, s);
    InOrder(size, s, 1);
    var j :| 0 <= j < |s| && s[j] == 1;
    BuiltRanks(size, s[|s| - 1]);
    NodeIndex(next, m, size, seed, list, s, 1);
    NodeIndex(next, m, size, seed, list, s, s[|s| - 1]);
    IndexRange(size, seed, s[|s| - 1]);
    SortedPair(m, Built(size - 1), s, j, |s| - 1);
  }

  /** The original head is first, even if another index is 0, exactly while the indices
      of the ordered fifth stay non-negative as 16-bit numbers. */
  lemma HeadFirstIff(next: seq<Ptr>, m: Cells, size: nat, seed: s16, list: Ptr, s: seq<nat>)
    requires Initialized(next, m, size, seed, list, s)
    ensures s != [] && (s[0] == 0 <==> size / 5 <= 0x8000)
    ensures size / 5 <= 0x8000 ==> list == 0 && s[|s| - 1] == 1
  {
    InitializedParts(next, m, size, seed, list, s);
    hide *;
    if size / 5 <= 0x8000 {
      HeadFirst(next, m, size, seed, list, s);
      SentinelLast(next, m, size, seed, list, s);
    } else {
      var x := size - 1 - 0x8000;
      NodeIndex(next, m, size, seed, list, s, x);
      NodeIndex(next, m, size, seed, list, s, 0);
      WrappedIndex(size, seed);
      InOrder(size, s, x);
      var i :| 0 <= i < |s| && s[i] == x;
      SortedPair(m, Built(size - 1), s, 0, i);
    }
  }

  lemma WrappedIndex(size: nat, seed: s16)
    requires size / 5 > 0x8000
    ensures IndexOf(size, seed, size - 1 - 0x8000) == -0x8000 && IndexOf(size, seed, 0) == 0
  {
  }

  lemma SortedPair(m: Cells, b: seq<nat>, s: seq<nat>, i: nat, j: nat)
    requires StablySorted(m, CmpIdx, b, s) && i <= j < |s|
    ensures i < j ==> m.HasCell(s[i]) && m.HasCell(s[j]) && m.Key(CmpIdx, s[i]) <= m.Key(CmpIdx, s[j])
    ensures i < j && m.Key(CmpIdx, s[i]) == m.Key(CmpIdx, s[j]) ==> Rank(b, s[i]) < Rank(b, s[j])
  {
    if i < j {
      assert StablyBefore(m, CmpIdx, b, s[i], s[j]);
    }
  }

  lemma BuiltRanks(size: nat, x: nat)
    requires size >= 3 && x < size - 1
    ensures Rank(Built(size - 1), x) == if x == 0 then 0 else size - 1 - x
    ensures Rank(Built(size - 1), 0) == 0 && Rank(Built(size - 1), 1) == size - 2
  {
    var b := Built(size - 1);
    PlaceOf(size, x);
    RankAt(b, if x == 0 then 0 else size - 1 - x);
    RankAt(b, 0);
    RankAt(b, size - 2);
  }

  lemma IndexRange(size: nat, seed: s16, x: nat)
    requires size >= 3 && size / 5 <= 0x8000 && x < size - 1
    ensures 0 <= IndexOf(size, seed, x) <= 0x7fff
    ensures IndexOf(size, seed, 0) == 0 && IndexOf(size, seed, 1) == 0x7fff
  {
  }

  // ------------------------------------------------------- when indices are distinct

  /** A list of this size from this seed has no index twice. */
  predicate DistinctIndexing(size: int, seed: s16) {
    forall x, y :: 0 <= x < y < size - 1 ==> IndexOf(size, seed, x) != IndexOf(size, seed, y)
  }

  /** The freshly built list is in the state the benchmark restores exactly when size and
      seed give no index twice. */
  lemma CanonicalIff(next: seq<Ptr>, m: Cells, size: nat, seed: s16, list: Ptr, s: seq<nat>)
    requires Initialized(next, m, size, seed, list, s)
    ensures Canonical(m, s) <==> DistinctIndexing(size, seed)
  {
    hide Canonical, Initialized;
    CellIndices(next, m, size, seed, list, s);
    hide IndexOf;
    if DistinctIndexing(size, seed) {
      DistinctCanonical(next, m, size, seed, list, s);
    }
    if Canonical(m, s) {
      CanonicalDistinct(next, m, size, seed, list, s);
    }
  }

  lemma CellIndices(next: seq<Ptr>, m: Cells, size: nat, seed: s16, list: Ptr, s: seq<nat>)
    requires Initialized(next, m, size, seed, list, s)
    ensures |m.idx| >= size - 1
    ensures forall x :: 0 <= x < size - 1 ==> m.idx[x] == IndexOf(size, seed, x)
  {
    hide IndexOf;
    forall x | 0 <= x < size - 1
      ensures m.idx[x] == IndexOf(size, seed, x)
    {
      NodeIndex(next, m, size, seed, list, s, x);
    }
  }

  lemma DistinctCanonical(next: seq<Ptr>, m: Cells, size: nat, seed: s16, list: Ptr, s: seq<nat>)
    requires Initialized(next, m, size, seed, list, s)
    requires forall x, y :: 0 <= x < y < size - 1 ==> m.idx[x] != m.idx[y]
    ensures Canonical(m, s)
  {
    InitializedParts(next, m, size, seed, list, s);
    NodesInRange(size, s);
    hide IsList, Rank, Built, StablySorted, Indexed;
    forall a, b | 0 <= a < b < |s|
      ensures m.idx[m.info[s[a]]] < m.idx[m.info[s[b]]]
    {
      SortedPair(m, Built(size - 1), s, a, b);
      Apart(next, list, s, a, b);
      assert m.info[s[a]] == s[a] && m.info[s[b]] == s[b];
    }
  }

  lemma CanonicalDistinct(next: seq<Ptr>, m: Cells, size: nat, seed: s16, list: Ptr, s: seq<nat>)
    requires Initialized(next, m, size, seed, list, s) && Canonical(m, s)
    ensures forall x, y :: 0 <= x < y < size - 1 ==> m.idx[x] != m.idx[y]
  {
    hide IsList, Rank, Built, StablySorted, ItemIndex;
    forall x, y | 0 <= x < y < size - 1
      ensures m.idx[x] != m.idx[y]
    {
      InOrder(size, s, x);
      InOrder(size, s, y);
      var a :| 0 <= a < |s| && s[a] == x;
      var b :| 0 <= b < |s| && s[b] == y;
      assert m.info[s[a]] == x && m.info[s[b]] == y;
      assert a < b || b < a;
    }
  }

  lemma Apart(next: seq<Ptr>, list: Ptr, s: seq<nat>, a: nat, b: nat)
    requires IsList(next, list, s) && a < b < |s|
    ensures s[a] != s[b]
  {
  }

  /** The parts that make up a mixed index: the bytes of the seed and of the place, and the
      low bits of the next place. */
  function LowSeed(seed: s16): nat {
    seed % 0x100
  }

  function HighSeed(seed: s16): nat {
    seed % 0x1_0000 / 0x100
  }

  function LowPlace(p: nat): nat {
    p % 0x100
  }

  function HighPlace(p: nat): nat {
    p % 0x1_0000 / 0x100
  }

  function NextPlace(p: nat): nat {
    (p + 1) % 8
  }

  function Low6(v: nat): nat {
    v % 64
  }

  function Low14(v: nat): nat {
    v % 0x4000
  }

  /** The bits of a mixed index above its low byte. */
  function MixedHigh(seed: s16, p: nat): nat {
    Low6(Or(NextPlace(p), Xor(HighPlace(p), HighSeed(seed))))
  }

  lemma MixedIs(seed: s16, p: nat)
    ensures MixedIndex(seed, p) == Low14(Or(0x100 * NextPlace(p),
      Xor(LowPlace(p) + 0x100 * HighPlace(p), LowSeed(seed) + 0x100 * HighSeed(seed))))
    ensures LowSeed(seed) < 0x100 && LowPlace(p) < 0x100
  {
    hide Or, Xor, LowSeed, HighSeed, LowPlace, HighPlace;
    SeedBytes(seed);
    PlaceBytes(p);
  }

  lemma SeedBytes(seed: s16)
    ensures seed % 0x1_0000 == LowSeed(seed) + 0x100 * HighSeed(seed) && LowSeed(seed) < 0x100
  {
    var w: int := if seed < 0 then seed as int + 0x1_0000 else seed;
    assert seed % 0x1_0000 == w;
    assert seed % 0x100 == w % 0x100;
  }

  lemma PlaceBytes(p: nat)
    ensures p % 0x1_0000 == LowPlace(p) + 0x100 * HighPlace(p) && LowPlace(p) < 0x100
  {
    var q, w := p / 0x1_0000, p % 0x1_0000;
    assert p == w + 0x1_0000 * q;
    assert w % 0x100 == (w + 0x100 * (0x100 * q)) % 0x100;
  }

  lemma Low14Parts(lo: nat, hi: nat)
    requires lo < 0x100
    ensures Low14(lo + 0x100 * hi) == lo + 0x100 * Low6(hi)
  {
    var q, r := hi / 64, hi % 64;
    assert lo + 0x100 * hi == (lo + 0x100 * r) + 0x4000 * q;
  }

  /** A mixed index: in its low byte the low bytes of place and seed, above it bits of the
      next place, of the place and of the seed. */
  lemma MixedParts(seed: s16, p: nat)
    ensures MixedIndex(seed, p) == Xor(LowPlace(p), LowSeed(seed)) + 0x100 * MixedHigh(seed, p)
    ensures Xor(LowPlace(p), LowSeed(seed)) < 0x100
  {
    hide *;
    MixedIs(seed, p);
    MixedHighIs(seed, p);
    MixedValue(LowPlace(p), HighPlace(p), NextPlace(p), LowSeed(seed), HighSeed(seed));
  }

  lemma MixedHighIs(seed: s16, p: nat)
    ensures MixedHigh(seed, p) == Low6(Or(NextPlace(p), Xor(HighPlace(p), HighSeed(seed))))
  {
  }

  lemma MixedValue(lo1: nat, hi1: nat, h: nat, lo: nat, hi: nat)
    requires lo1 < 0x100 && lo < 0x100
    ensures Low14(Or(0x100 * h, Xor(lo1 + 0x100 * hi1, lo + 0x100 * hi)))
      == Xor(lo1, lo) + 0x100 * Low6(Or(h, Xor(hi1, hi)))
    ensures Xor(lo1, lo) < 0x100
  {
    hide *;
    Pow2Values();
    ShiftValues(hi1);
    ShiftValues(hi);
    XorParts(lo1, hi1, lo, hi, 8);
    var x := Xor(hi1, hi);
    ShiftValues(h);
    ShiftValues(x);
    ShiftValues(Or(h, x));
    OrParts(0, h, Xor(lo1, lo), x, 8);
    OrZero(Xor(lo1, lo));
    Low14Parts(Xor(lo1, lo), Or(h, x));
  }

  /** Bits 8 to 13 of the seed. */
  function HighBits(seed: s16): nat {
    HighSeed(seed) % 64
  }

  /** Every eighth place has none of its bits in the index. */
  predicate Eighth(p: nat) {
    p % 8 == 7
  }

  lemma NextPlaceIs(p: nat)
    ensures NextPlace(p) < 8 && (NextPlace(p) == 0 <==> Eighth(p))
  {
  }

  lemma HighBitsAre(seed: s16) returns (q: nat)
    ensures HighSeed(seed) == HighBits(seed) + 64 * q && HighBits(seed) < 64
  {
    q := HighSeed(seed) / 64;
  }

  lemma Pow2Six()
    ensures Pow2(6) == 64
  {
    assert Pow2(3) == 8;
  }

  lemma Low6Parts(lo: nat, hi: nat)
    requires lo < 64
    ensures Low6(lo + 64 * hi) == lo
  {
  }

  /** The upper part vanishes for every eighth place only, and only if place and seed have
      the same bits there. */
  lemma MixedHighZero(seed: s16, p: nat)
    requires HighPlace(p) < 64
    ensures MixedHigh(seed, p) == 0 <==> Eighth(p) && HighBits(seed) == HighPlace(p)
  {
    hide *;
    NextPlaceIs(p);
    MixedHighIs(seed, p);
    Pow2Six();
    var h, a, g := NextPlace(p), HighPlace(p), HighBits(seed);
    var q := HighBitsAre(seed);
    ShiftValues(0);
    ShiftValues(q);
    ShiftValues(Xor(0, q));
    XorParts(a, 0, g, q, 6);
    var x, y := Xor(a, g), Xor(0, q);
    ShiftValues(y);
    ShiftValues(Or(0, y));
    OrParts(h, 0, x, y, 6);
    OrNothing(h, x);
    XorEqualsZero(a, g);
    Low6Parts(Or(h, x), Or(0, y));
  }

  /** The first place whose index is mixed; the indices before it are the places. */
  function FirstMixed(size: nat): nat {
    if size / 5 == 0 then 1 else size / 5
  }

  /** No mixed index falls among those in order. */
  predicate NoClash(size: nat, seed: s16) {
    forall p :: FirstMixed(size) <= p < size - 2 && Eighth(p) && HighBits(seed) == p / 0x100 ==>
      Xor(LowPlace(p), LowSeed(seed)) >= FirstMixed(size)
  }

  lemma ItemIndexIs(size: nat, seed: s16, p: nat)
    requires 3 <= size <= 322 && 1 <= p < size - 2
    ensures ItemIndex(size, seed, p) == if p < FirstMixed(size) then p else MixedIndex(seed, p)
    ensures 1 <= FirstMixed(size) <= 64 && ItemIndex(size, seed, p) < 0x7fff && HighPlace(p) == p / 0x100 < 64
  {
    hide MixedIndex, HighPlace;
    SmallPlace(p);
    WrapPlace(p);
    hide ToS16;
  }

  lemma SmallPlace(p: nat)
    requires p < 0x200
    ensures HighPlace(p) == p / 0x100 < 64
  {
  }

  lemma WrapPlace(p: nat)
    requires p < 0x200
    ensures ToS16(p) == p
  {
  }

  lemma PlaceIndex(size: nat, seed: s16, p: nat)
    requires 3 <= size <= 322 && 1 <= p < size - 2
    ensures p < FirstMixed(size) ==> ItemIndex(size, seed, p) == p
    ensures p >= FirstMixed(size) ==>
      ItemIndex(size, seed, p) == Xor(LowPlace(p), LowSeed(seed)) + 0x100 * MixedHigh(seed, p)
    ensures MixedHigh(seed, p) == 0 <==> Eighth(p) && HighBits(seed) == p / 0x100
    ensures 0 <= ItemIndex(size, seed, p) < 0x7fff && 1 <= FirstMixed(size) <= 64
      && Xor(LowPlace(p), LowSeed(seed)) < 0x100
  {
    hide *;
    ItemIndexIs(size, seed, p);
    MixedParts(seed, p);
    MixedHighZero(seed, p);
  }

  lemma LowByteInjective(p: nat, q: nat, x: nat)
    requires Xor(p, x) == Xor(q, x)
    ensures p == q
  {
    XorInvolution(p, x);
    XorInvolution(q, x);
  }

  /** No index occurs twice exactly when the list has at most 322 items and no mixed index
      falls among those in order. */
  lemma DistinctIndices(size: nat, seed: s16)
    requires size >= 3
    ensures DistinctIndexing(size, seed) <==> size <= 322 && NoClash(size, seed)
  {
    hide *;
    if size > 322 {
      TooMany(size, seed);
    } else if NoClash(size, seed) {
      ClashFree(size, seed);
    } else {
      Clashes(size, seed);
    }
  }

  lemma ClashFree(size: nat, seed: s16)
    requires 3 <= size <= 322 && NoClash(size, seed)
    ensures DistinctIndexing(size, seed)
  {
    hide ItemIndex, Xor, HighBits, NoClash, FirstMixed;
    forall x, y | 0 <= x < y < size - 1
      ensures IndexOf(size, seed, x) != IndexOf(size, seed, y)
    {
      if y >= 2 {
        PlaceIndex(size, seed, size - 1 - y);
        PlacePositive(size, seed, size - 1 - y);
        if x >= 2 {
          PlacesApart(size, seed, size - 1 - y, size - 1 - x);
        }
      }
    }
  }

  lemma PlacePositive(size: nat, seed: s16, p: nat)
    requires 3 <= size <= 322 && NoClash(size, seed) && 1 <= p < size - 2
    ensures ItemIndex(size, seed, p) > 0
    ensures p >= FirstMixed(size) ==> ItemIndex(size, seed, p) >= FirstMixed(size)
  {
    hide ItemIndex, Xor, HighBits, FirstMixed, MixedHigh, LowPlace, LowSeed, Eighth;
    PlaceIndex(size, seed, p);
  }

  /** At most 256 places have mixed indices, so they differ in their low bytes. */
  lemma LowPlacesApart(size: nat, p: nat, q: nat)
    requires 3 <= size <= 322 && FirstMixed(size) <= p < q < size - 2
    ensures LowPlace(p) != LowPlace(q)
  {
    assert q - p < 0x100;
  }

  lemma PlacesApart(size: nat, seed: s16, p: nat, q: nat)
    requires 3 <= size <= 322 && NoClash(size, seed) && 1 <= p < q < size - 2
    ensures ItemIndex(size, seed, p) != ItemIndex(size, seed, q)
  {
    hide *;
    PlaceIndex(size, seed, p);
    PlaceIndex(size, seed, q);
    PlacePositive(size, seed, q);
    var a, b := Xor(LowPlace(p), LowSeed(seed)), Xor(LowPlace(q), LowSeed(seed));
    if p >= FirstMixed(size) {
      LowPlacesApart(size, p, q);
      if a == b {
        LowByteInjective(LowPlace(p), LowPlace(q), LowSeed(seed));
      }
    }
  }

  /** Two nodes with the same index. */
  lemma SameIndex(size: nat, seed: s16, x: nat, y: nat)
    requires x < size - 1 && y < size - 1 && x != y && IndexOf(size, seed, x) == IndexOf(size, seed, y)
    ensures !DistinctIndexing(size, seed)
  {
    hide IndexOf;
    if x < y {
      assert IndexOf(size, seed, x) == IndexOf(size, seed, y);
    } else {
      assert IndexOf(size, seed, y) == IndexOf(size, seed, x);
    }
  }

  lemma Clashes(size: nat, seed: s16)
    requires 3 <= size <= 322 && !NoClash(size, seed)
    ensures !DistinctIndexing(size, seed)
  {
    hide ItemIndex, Xor, HighBits, FirstMixed, MixedHigh, LowPlace, LowSeed, Eighth, DistinctIndexing;
    var p :| FirstMixed(size) <= p < size - 2 && Eighth(p) && HighBits(seed) == p / 0x100
             && Xor(LowPlace(p), LowSeed(seed)) < FirstMixed(size);
    PlaceIndex(size, seed, p);
    var i := Xor(LowPlace(p), LowSeed(seed));
    var x, y := if i == 0 then 0 else size - 1 - i, size - 1 - p;
    if i > 0 {
      PlaceIndex(size, seed, i);
    }
    assert IndexOf(size, seed, x) == i == IndexOf(size, seed, y);
    SameIndex(size, seed, x, y);
  }

  /** An even place and the one 256 behind it get the same mixed index if bit 8 of the place
      is clear: that bit is hidden behind the lowest bit of the next place. */
  lemma EvenPlaces(seed: s16, p: nat)
    requires p % 2 == 0 && p % 0x200 < 0x100
    ensures MixedIndex(seed, p) == MixedIndex(seed, p + 0x100)
  {
    NextPlacesEqual(p);
    hide *;
    MixedParts(seed, p);
    MixedParts(seed, p + 0x100);
    MixedHighIs(seed, p);
    MixedHighIs(seed, p + 0x100);
    HiddenBit(NextPlace(p), HighPlace(p), HighSeed(seed));
  }

  lemma NextPlacesEqual(p: nat)
    requires p % 2 == 0 && p % 0x200 < 0x100
    ensures NextPlace(p + 0x100) == NextPlace(p) && NextPlace(p) % 2 == 1
    ensures LowPlace(p + 0x100) == LowPlace(p)
    ensures HighPlace(p + 0x100) == HighPlace(p) + 1 && HighPlace(p) % 2 == 0
  {
    hide *;
    NextPlaceShifted(p);
    LowPlaceShifted(p);
    HighPlaceShifted(p);
  }

  lemma NextPlaceShifted(p: nat)
    requires p % 2 == 0
    ensures NextPlace(p + 0x100) == NextPlace(p) && NextPlace(p) % 2 == 1
  {
    var a := (p + 1) / 8;
    assert p + 0x100 + 1 == 8 * (a + 32) + (p + 1) % 8;
  }

  lemma LowPlaceShifted(p: nat)
    ensures LowPlace(p + 0x100) == LowPlace(p)
  {
  }

  lemma HighPlaceShifted(p: nat)
    requires p % 0x200 < 0x100
    ensures HighPlace(p + 0x100) == HighPlace(p) + 1 && HighPlace(p) % 2 == 0
  {
    var q, r := p / 0x200, p % 0x200;
    hide HighPlace;
    HighPlaceIs(p, q, r);
    HighPlaceIs(p + 0x100, q, r + 0x100);
  }

  lemma HighPlaceIs(p: nat, q: nat, r: nat)
    requires p == 0x200 * q + r && r < 0x200
    ensures HighPlace(p) == 2 * (q % 0x80) + r / 0x100
  {
    var a, b := q / 0x80, q % 0x80;
    assert q == 0x80 * a + b;
    WordRest(a, 0x200 * b + r);
    HighRest(b, r);
  }

  lemma WordRest(a: nat, w: nat)
    requires w < 0x1_0000
    ensures (0x1_0000 * a + w) % 0x1_0000 == w
  {
  }

  lemma HighRest(b: nat, r: nat)
    ensures (0x200 * b + r) / 0x100 == 2 * b + r / 0x100
  {
  }

  lemma HiddenBit(h: nat, a: nat, g: nat)
    requires h % 2 == 1 && a % 2 == 0
    ensures Or(h, Xor(a, g)) == Or(h, Xor(a + 1, g))
  {
    hide *;
    HiddenBitOf(h / 2, a / 2, g / 2, g % 2);
  }

  lemma HiddenBitOf(h: nat, a: nat, g: nat, c: nat)
    requires c < 2
    ensures Or(2 * h + 1, Xor(2 * a, 2 * g + c)) == Or(2 * h + 1, Xor(2 * a + 1, 2 * g + c))
  {
    hide *;
    XorBit(a, g, 0, c);
    XorBit(a, g, 1, c);
    OrBit(h, Xor(a, g), 1, 0);
    OrBit(h, Xor(a, g), 1, 1);
  }

  /** From 323 items on there are always two such places. */
  lemma TooMany(size: nat, seed: s16)
    requires size >= 323
    ensures !DistinctIndexing(size, seed)
  {
    var p := EvenPlace(size);
    EvenPlaces(seed, p);
    MixedItem(size, seed, p);
    MixedItem(size, seed, p + 0x100);
    hide *;
    SameIndex(size, seed, size - 1 - p, size - 1 - (p + 0x100));
  }

  lemma EvenPlace(size: nat) returns (p: nat)
    requires size >= 323
    ensures size / 5 <= p && p + 0x100 < size - 2 && p % 2 == 0 && p % 0x200 < 0x100
  {
    var f := size / 5;
    var q, r := f / 0x200, f % 0x200;
    p := 0x200 * q + (if r >= 0xff then 0x200 else r + r % 2);
    EvenRest(q, if r >= 0xff then 0x200 else r + r % 2);
  }

  lemma EvenRest(q: nat, r: nat)
    requires r % 2 == 0 && (r < 0x100 || r == 0x200)
    ensures (0x200 * q + r) % 2 == 0 && (0x200 * q + r) % 0x200 < 0x100
  {
  }

  lemma MixedItem(size: nat, seed: s16, p: nat)
    requires size >= 323 && size / 5 <= p < size - 2
    ensures 1 <= size - 1 - p < size - 1 && IndexOf(size, seed, size - 1 - p) == MixedIndex(seed, p)
  {
    hide MixedIndex;
  }
}
