/** The memory CoreMark's linked list lives in: list nodes and data cells, both
    addressed by number, updated in place through pointers. */
module ListMemory {
  import opened MachineInts
  import opened ListOrder

  /** A pointer to a node or cell is its number in the block. */
  type Ptr = int
  const NULL: Ptr := -1

  function PtrAt(s: seq<nat>, k: nat): Ptr {
    if k < |s| then s[k] else NULL
  }

  /** The nodes of s follow one another and the last one points nowhere. */
  predicate Links(next: seq<Ptr>, s: seq<nat>) {
    forall k :: 0 <= k < |s| ==> s[k] < |next| && next[s[k]] == PtrAt(s, k + 1)
  }

  /** `list` is the acyclic list of the nodes of s, in that order. */
  predicate IsList(next: seq<Ptr>, list: Ptr, s: seq<nat>) {
    list == PtrAt(s, 0) && NoDup(s) && Links(next, s)
  }

  lemma IsListIntro(next: seq<Ptr>, list: Ptr, s: seq<nat>)
    requires list == PtrAt(s, 0) && NoDup(s)
    requires forall i :: 0 <= i < |s| ==> s[i] < |next| && next[s[i]] == PtrAt(s, i + 1)
    ensures IsList(next, list, s)
  {
  }

  // ------------------------------------------------------ the 16-bit data word
  //
  // Upper byte: backup of the original data.  Bit 7: the low 7 bits are a cached
  // result.  Bits 0-2 of the original: which operation; bits 3-6: its input.

  function High(d: u16): u8 {
    d / 0x100
  }

  function Low(d: u16): u8 {
    d % 0x100
  }

  predicate Cached(d: u16) {
    d / 0x80 % 2 == 1
  }

  function Cache(d: u16, retval: u16): (r: u16)
    ensures High(r) == High(d) && Cached(r) && r % 0x80 == retval % 0x80
  {
    d / 0x100 * 0x100 + 0x80 + retval % 0x80
  }

  /** (d & 0xff00) | (0x00ff & (d >> 8)) */
  function Regen(d: u16): (r: u16)
    ensures High(r) == High(d) && Low(r) == High(d)
  {
    d / 0x100 * 0x100 + d / 0x100
  }

  // --------------------------------------------------------------- comparison

  /** The two comparison functions; `core_list_mergesort` gets a pointer to one. */
  datatype Cmp = CmpComplex | CmpIdx

  /** Comparing a cell again will neither change its data nor its key. */
  predicate Settled(cmp: Cmp, hasRes: bool, d: u16) {
    match cmp
    case CmpComplex => Cached(d)
    case CmpIdx => hasRes || Low(d) == High(d)
  }

  /** How a cell's data may change under comparisons: not at all once settled, and
      never in its upper byte. */
  predicate Evolved(cmp: Cmp, hasRes: bool, d: u16, d': u16) {
    High(d') == High(d) && (Settled(cmp, hasRes, d) ==> d' == d) && (d' == d || Settled(cmp, hasRes, d'))
  }

  ghost predicate AllEvolved(cmp: Cmp, hasRes: bool, d: seq<u16>, d': seq<u16>) {
    |d'| == |d| && forall c :: 0 <= c < |d| ==> Evolved(cmp, hasRes, d[c], d'[c])
  }

  lemma AllEvolvedRefl(cmp: Cmp, hasRes: bool, d: seq<u16>)
    ensures AllEvolved(cmp, hasRes, d, d)
  {
  }

  lemma AllEvolvedTrans(cmp: Cmp, hasRes: bool, d0: seq<u16>, d1: seq<u16>, d2: seq<u16>)
    requires AllEvolved(cmp, hasRes, d0, d1) && AllEvolved(cmp, hasRes, d1, d2)
    ensures AllEvolved(cmp, hasRes, d0, d2)
  {
    forall c | 0 <= c < |d0|
      ensures Evolved(cmp, hasRes, d0[c], d2[c])
    {
      assert Evolved(cmp, hasRes, d0[c], d1[c]) && Evolved(cmp, hasRes, d1[c], d2[c]);
    }
  }

  function KeyOf(cmp: Cmp, d: u16, i: s16): int {
    match cmp
    case CmpComplex => d % 0x80
    case CmpIdx => i
  }

  /** A snapshot of the block without its links. */
  datatype Cells = Cells(info: seq<nat>, data16: seq<u16>, idx: seq<s16>) {
    /** The nodes of s point at cells. */
    predicate Hold(s: seq<nat>) {
      |idx| == |data16| && forall k :: 0 <= k < |s| ==> s[k] < |info| && info[s[k]] < |data16|
    }

    predicate HasCell(x: nat) {
      x < |info| && info[x] < |data16| && info[x] < |idx|
    }

    function Data(x: nat): u16
      requires HasCell(x)
    {
      data16[info[x]]
    }

    function Key(cmp: Cmp, x: nat): int
      requires HasCell(x)
    {
      KeyOf(cmp, data16[info[x]], idx[info[x]])
    }

    /** Every recorded key is the node's key now and for good. */
    ghost predicate Known(cmp: Cmp, hasRes: bool, keys: Keys) {
      forall x :: x in keys ==> HasCell(x) && Settled(cmp, hasRes, Data(x)) && keys[x] == Key(cmp, x)
    }
  }

  /** The cells the nodes of s point at. */
  function CellsOf(info: seq<nat>, s: seq<nat>): set<nat> {
    set k | 0 <= k < |s| && s[k] < |info| :: info[s[k]]
  }

  /** Only data of cells the list points at may differ. */
  ghost predicate SameCells(info: seq<nat>, s: seq<nat>, d: seq<u16>, d': seq<u16>) {
    |d'| == |d| && forall c :: 0 <= c < |d| && c !in CellsOf(info, s) ==> d'[c] == d[c]
  }

  lemma KnownEvolves(m: Cells, m': Cells, cmp: Cmp, hasRes: bool, keys: Keys)
    requires m.Known(cmp, hasRes, keys)
    requires m'.info == m.info && m'.idx == m.idx && AllEvolved(cmp, hasRes, m.data16, m'.data16)
    ensures m'.Known(cmp, hasRes, keys)
  {
    forall x | x in keys
      ensures m'.HasCell(x) && Settled(cmp, hasRes, m'.Data(x)) && keys[x] == m'.Key(cmp, x)
    {
      assert Evolved(cmp, hasRes, m.data16[m.info[x]], m'.data16[m.info[x]]);
    }
  }

  class Memory {
    var next: seq<Ptr>
    var info: seq<nat>
    var data16: seq<u16>
    var idx: seq<s16>

    /** A block with room for so many nodes and cells; what it holds does not matter. */
    constructor (nodes: nat, cells: nat)
      ensures |next| == nodes && |info| == nodes && |data16| == cells && |idx| == cells
    {
      next := seq(nodes, _ => NULL);
      info := seq(nodes, _ => 0);
      data16 := seq(cells, _ => 0);
      idx := seq(cells, _ => 0);
    }

    ghost function View(): Cells
      reads `info, `data16, `idx
    {
      Cells(info, data16, idx)
    }
  }
}
