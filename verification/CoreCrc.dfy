/** The CRC of a run of `iterate` is the CRC of the words the run has folded in: the results of
    the operations and the values of the list benchmarks, in the order they come. */
module CoreCrc {
  import opened MachineInts
  import opened Crc
  import opened StateBench
  import opened ListOrder
  import opened ListMemory
  import opened ListCompare
  import opened ListTrace
  import opened ListBench
  import opened CoreIterate

  /** Words as bytes, each low byte first. */
  function Words(vs: seq<u16>): (msg: seq<u8>)
    ensures |msg| == 2 * |vs|
  {
    if vs == [] then [] else Words(vs[..|vs| - 1]) + Bytes16(vs[|vs| - 1])
  }

  lemma {:induction false} WordsAppend(a: seq<u16>, b: seq<u16>)
    ensures Words(a + b) == Words(a) + Words(b)
  {
    if b == [] {
      assert a + b == a;
    } else {
      WordsAppend(a, b[..|b| - 1]);
      assert (a + b)[..|a + b| - 1] == a + b[..|b| - 1];
    }
  }

  /** Folding words in one after the other. */
  lemma FoldsAppend(a: seq<u16>, b: seq<u16>, crc: u16)
    ensures CrcOf(Words(a + b), crc) == CrcOf(Words(b), CrcOf(Words(a), crc))
  {
    hide CrcOf, Words;
    WordsAppend(a, b);
    CrcOfAppend(Words(a), Words(b), crc);
  }

  lemma OneWord(v: u16, crc: u16)
    ensures CrcOf(Words([v]), crc) == CrcOf(Bytes16(v), crc)
  {
    hide CrcOf;
    assert [v][..0] == [];
    assert Words([v]) == Bytes16(v);
  }

  lemma NoWord(crc: u16)
    ensures CrcOf(Words([]), crc) == crc
  {
  }

  /** The result of touching a data word, if it is not cached. */
  ghost function ResultsOf(env: Env, b: Bench, d: u16): seq<u16>
    requires env.Ready() && TextSafe(env, b)
  {
    if Cached(d) then [] else [OpResult(env, b, d)]
  }

  /** The results of touching the cells of s, in order. */
  ghost function TouchResults(env: Env, m: Machine, info: seq<nat>, s: seq<nat>): seq<u16>
    requires Able(env, CmpComplex, m) && Ranged(m.data16, info, s)
  {
    if s == [] then [] else
      var t := TouchAll(env, CmpComplex, true, m, info, s[..|s| - 1]);
      TouchResults(env, m, info, s[..|s| - 1]) + ResultsOf(env, t.bench, t.data16[info[s[|s| - 1]]])
  }

  /** What one list benchmark folds in: the results of its sort by data, and its value. */
  ghost function TurnResults(env: Env, m: Cells, findNum: s16, finderIdx: s16, r: Run): seq<u16>
    requires RunReady(env, m, r)
  {
    var f := AllFinds(m, r.s, findNum, finderIdx);
    HoldRanged(m, f.s);
    (if finderIdx > 0 then TouchResults(env, Machine(m.data16, r.bench), m.info, f.s) else [])
    + [BenchValue(env, m, r.s, findNum, finderIdx, r.bench)]
  }

  /** What k iterations fold in: the benchmarks with the finder indices 1 and -1 in turn. */
  ghost function RunResults(env: Env, m: Cells, findNum: s16, r: Run, k: nat): seq<u16>
    requires RunReady(env, m, r)
  {
    if k == 0 then [] else
      var q := RoundsAfter(env, m, findNum, r, k - 1);
      RunResults(env, m, findNum, r, k - 1) + TurnResults(env, m, findNum, 1, q)
      + TurnResults(env, m, findNum, -1, Turn(env, m, findNum, 1, q))
  }

  lemma {:induction false} TouchesFold(env: Env, m: Machine, info: seq<nat>, s: seq<nat>)
    requires Able(env, CmpComplex, m) && Ranged(m.data16, info, s)
    ensures TouchAll(env, CmpComplex, true, m, info, s).bench.crc
      == CrcOf(Words(TouchResults(env, m, info, s)), m.bench.crc)
    decreases |s|
  {
    hide StaysScannable, Env.Ready, Touch, CrcOf, Words, ResultsOf;
    if s == [] {
      NoWord(m.bench.crc);
    } else {
      var t := TouchAll(env, CmpComplex, true, m, info, s[..|s| - 1]);
      var d := t.data16[info[s[|s| - 1]]];
      TouchesFold(env, m, info, s[..|s| - 1]);
      TouchFolds(env, t, info[s[|s| - 1]]);
      FoldsAppend(TouchResults(env, m, info, s[..|s| - 1]), ResultsOf(env, t.bench, d), m.bench.crc);
    }
  }

  lemma TouchFolds(env: Env, m: Machine, cell: nat)
    requires Able(env, CmpComplex, m) && cell < |m.data16|
    ensures Touch(env, CmpComplex, true, m, cell).bench.crc
      == CrcOf(Words(ResultsOf(env, m.bench, m.data16[cell])), m.bench.crc)
  {
    hide StaysScannable, Env.Ready, OpResult, CrcOf, Words, Bytes16;
    var d := m.data16[cell];
    NoWord(m.bench.crc);
    OneWord(OpResult(env, m.bench, d), m.bench.crc);
  }

  lemma TurnFolds(env: Env, m: Cells, findNum: s16, finderIdx: s16, r: Run)
    requires RunReady(env, m, r)
    ensures Turn(env, m, findNum, finderIdx, r).bench.crc
      == CrcOf(Words(TurnResults(env, m, findNum, finderIdx, r)), r.bench.crc)
  {
    hide *;
    RunParts(env, m, r);
    TurnIs(env, m, findNum, finderIdx, r);
    var v := BenchValue(env, m, r.s, findNum, finderIdx, r.bench);
    var touched := SortFolds(env, m, findNum, finderIdx, r);
    FoldsAppend(touched, [v], r.bench.crc);
    OneWord(v, AfterSort(env, m, r.s, findNum, finderIdx, r.bench).bench.crc);
  }

  lemma SortFolds(env: Env, m: Cells, findNum: s16, finderIdx: s16, r: Run) returns (touched: seq<u16>)
    requires RunReady(env, m, r) && BenchReady(env, m, r.s, r.bench)
    ensures TurnResults(env, m, findNum, finderIdx, r)
      == touched + [BenchValue(env, m, r.s, findNum, finderIdx, r.bench)]
    ensures AfterSort(env, m, r.s, findNum, finderIdx, r.bench).bench.crc == CrcOf(Words(touched), r.bench.crc)
  {
    hide AllFinds, TouchAll, TouchResults, Able, NoDup, IndexSorted, Cells.Hold, BenchValue, CrcOf, Words;
    var f := AllFinds(m, r.s, findNum, finderIdx);
    HoldRanged(m, f.s);
    if finderIdx > 0 {
      touched := TouchResults(env, Machine(m.data16, r.bench), m.info, f.s);
      TouchesFold(env, Machine(m.data16, r.bench), m.info, f.s);
    } else {
      touched := [];
      NoWord(r.bench.crc);
    }
  }

  /** The CRC after k iterations is the CRC of all these words, from the one the run starts with. */
  lemma {:induction false} RunCrc(env: Env, m: Cells, findNum: s16, r: Run, k: nat)
    requires RunReady(env, m, r)
    ensures RoundsAfter(env, m, findNum, r, k).bench.crc
      == CrcOf(Words(RunResults(env, m, findNum, r, k)), r.bench.crc)
  {
    hide *;
    RunResultsTurn(env, m, findNum, r, k);
    if k == 0 {
      RoundsTurn(env, m, findNum, r, 0);
      NoWord(r.bench.crc);
    } else {
      RunCrc(env, m, findNum, r, k - 1);
      RoundsTurn(env, m, findNum, r, k - 1);
      var q := RoundsAfter(env, m, findNum, r, k - 1);
      RoundIs(env, m, findNum, q);
      var u := Turn(env, m, findNum, 1, q);
      TurnFolds(env, m, findNum, 1, q);
      TurnFolds(env, m, findNum, -1, u);
      var a, b, c := RunResults(env, m, findNum, r, k - 1), TurnResults(env, m, findNum, 1, q),
        TurnResults(env, m, findNum, -1, u);
      FoldsAppend(a + b, c, r.bench.crc);
      FoldsAppend(a, b, r.bench.crc);
    }
  }

  lemma RunResultsTurn(env: Env, m: Cells, findNum: s16, r: Run, k: nat)
    requires RunReady(env, m, r)
    ensures k == 0 ==> RunResults(env, m, findNum, r, k) == []
    ensures k > 0 ==> (
      var q := RoundsAfter(env, m, findNum, r, k - 1);
      RunReady(env, m, Turn(env, m, findNum, 1, q))
      && RunResults(env, m, findNum, r, k) == RunResults(env, m, findNum, r, k - 1)
      + TurnResults(env, m, findNum, 1, q) + TurnResults(env, m, findNum, -1, Turn(env, m, findNum, 1, q)))
  {
    hide RunReady, TurnResults, RoundsAfter, Turn;
  }

  /** From the first iteration on, its CRC is the list CRC on record. */
  lemma ListCrc(env: Env, m: Cells, findNum: s16, r: Run, k: nat)
    requires RunReady(env, m, r) && k > 0
    ensures RoundsAfter(env, m, findNum, r, k).bench.crclist == RoundsAfter(env, m, findNum, r, 1).bench.crc
  {
    RecordsStay(env, m, findNum, r, 1, k);
    hide RunReady, RoundAfter, RoundsAfter;
    RoundsTurn(env, m, findNum, r, 0);
  }
}
