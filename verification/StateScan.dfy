/** The number tokenizer of `core_state.c`: an eight-state machine, the languages
    its states stand for, and the counts a whole scan leaves behind. */
module StateScan {
  import opened MachineInts

  datatype State = Start | Invalid | S1 | S2 | Int | Float | Exponent | Scientific

  const COMMA: u8 := 0x2c
  const PLUS: u8 := 0x2b
  const MINUS: u8 := 0x2d
  const DOT: u8 := 0x2e
  const UPPER_E: u8 := 0x45
  const LOWER_E: u8 := 0x65

  predicate IsDigit(c: u8) {
    0x30 <= c <= 0x39
  }

  predicate IsSign(c: u8) {
    c == PLUS || c == MINUS
  }

  predicate IsE(c: u8) {
    c == UPPER_E || c == LOWER_E
  }

  /** The characters the machine knows. */
  lemma CharacterCodes(c: u8)
    requires c < 128
    ensures IsDigit(c) <==> '0' <= c as char <= '9'
    ensures IsSign(c) <==> c as char == '+' || c as char == '-'
    ensures IsE(c) <==> c as char == 'e' || c as char == 'E'
    ensures (c == COMMA <==> c as char == ',') && (c == DOT <==> c as char == '.')
  {
  }

  /** Where the switch of `core_state_transition` leads. */
  function Next(state: State, c: u8): State {
    match state
    case Start => if IsDigit(c) then Int else if IsSign(c) then S1 else if c == DOT then Float else Invalid
    case S1 => if IsDigit(c) then Int else if c == DOT then Float else Invalid
    case Int => if c == DOT then Float else if !IsDigit(c) then Invalid else Int
    case Float => if IsE(c) then S2 else if !IsDigit(c) then Invalid else Float
    case S2 => if IsSign(c) then Exponent else Invalid
    case Exponent => if IsDigit(c) then Scientific else Invalid
    case Scientific => if !IsDigit(c) then Invalid else Scientific
    case Invalid => Invalid
  }

  /** One count per state.  The C counters are these numbers modulo 2^32. */
  type Counts = c: seq<nat> | |c| == 8 witness [0, 0, 0, 0, 0, 0, 0, 0]

  const NO_COUNTS: Counts := [0, 0, 0, 0, 0, 0, 0, 0]

  function Code(state: State): (k: nat)
    ensures k < 8
  {
    match state
    case Start => 0
    case Invalid => 1
    case S1 => 2
    case S2 => 3
    case Int => 4
    case Float => 5
    case Exponent => 6
    case Scientific => 7
  }

  function Inc(counts: Counts, state: State): Counts {
    counts[Code(state) := counts[Code(state)] + 1]
  }

  /** The transition counters after reading `c` in `state`. */
  function Track(counts: Counts, state: State, c: u8): Counts {
    match state
    case Start => Inc(if Next(Start, c) == Invalid then Inc(counts, Invalid) else counts, Start)
    case Scientific => if Next(Scientific, c) == Invalid then Inc(counts, Invalid) else counts
    case Invalid => counts
    case _ => if Next(state, c) != state then Inc(counts, state) else counts
  }

  /** There is a terminator at or after p, so scanning from p stays inside s. */
  ghost predicate Terminated(s: seq<u8>, p: int) {
    exists k :: 0 <= p <= k < |s| && s[k] == 0
  }

  datatype Scanned = Scanned(state: State, pos: nat, track: Counts)

  /** What one call of `core_state_transition` does, from `state` at position p. */
  function Scan(s: seq<u8>, p: nat, state: State, track: Counts): (r: Scanned)
    requires Terminated(s, p)
    ensures p <= r.pos && Terminated(s, r.pos)
    ensures forall k :: p <= k < r.pos ==> s[k] != 0
    ensures state != Invalid && s[p] != 0 ==> p < r.pos
    decreases |s| - p
  {
    if s[p] == 0 || state == Invalid then Scanned(state, p, track)
    else if s[p] == COMMA then Scanned(state, p + 1, track)
    else Scan(s, p + 1, Next(state, s[p]), Track(track, state, s[p]))
  }

  datatype Tally = Tally(final: Counts, track: Counts)

  /** The scan loop of `core_bench_state`. */
  function ScanAll(s: seq<u8>, p: nat, t: Tally): Tally
    requires Terminated(s, p)
    decreases |s| - p
  {
    if s[p] == 0 then t
    else
      var r := Scan(s, p, Start, t.track);
      ScanAll(s, r.pos, Tally(Inc(t.final, r.state), r.track))
  }

  lemma ScanAllNext(s: seq<u8>, p: nat, t: Tally)
    requires Terminated(s, p)
    ensures s[p] == 0 ==> ScanAll(s, p, t) == t
    ensures s[p] != 0 ==> var r := Scan(s, p, Start, t.track);
      p < r.pos && ScanAll(s, p, t) == ScanAll(s, r.pos, Tally(Inc(t.final, r.state), r.track))
  {
    hide Scan, Inc;
  }

  /** The switch of `core_state_transition`: the new state, counted in place. */
  method Switch(state: State, nextSymbol: u8, transitionCount: array<nat>) returns (next: State)
    requires transitionCount.Length == 8
    modifies transitionCount
    ensures next == Next(state, nextSymbol)
    ensures transitionCount[..] == Track(old(transitionCount[..]), state, nextSymbol)
  {
    next := state;
    match state {
      case Start =>
        if IsDigit(nextSymbol) {
          next := Int;
        } else if nextSymbol == PLUS || nextSymbol == MINUS {
          next := S1;
        } else if nextSymbol == DOT {
          next := Float;
        } else {
          next := Invalid;
          transitionCount[Code(Invalid)] := transitionCount[Code(Invalid)] + 1;
        }
        transitionCount[Code(Start)] := transitionCount[Code(Start)] + 1;
      case S1 =>
        next := if IsDigit(nextSymbol) then Int else if nextSymbol == DOT then Float else Invalid;
        transitionCount[Code(S1)] := transitionCount[Code(S1)] + 1;
      case Int =>
        if nextSymbol == DOT {
          next := Float;
          transitionCount[Code(Int)] := transitionCount[Code(Int)] + 1;
        } else if !IsDigit(nextSymbol) {
          next := Invalid;
          transitionCount[Code(Int)] := transitionCount[Code(Int)] + 1;
        }
      case Float =>
        if nextSymbol == UPPER_E || nextSymbol == LOWER_E {
          next := S2;
          transitionCount[Code(Float)] := transitionCount[Code(Float)] + 1;
        } else if !IsDigit(nextSymbol) {
          next := Invalid;
          transitionCount[Code(Float)] := transitionCount[Code(Float)] + 1;
        }
      case S2 =>
        next := if nextSymbol == PLUS || nextSymbol == MINUS then Exponent else Invalid;
        transitionCount[Code(S2)] := transitionCount[Code(S2)] + 1;
      case Exponent =>
        next := if IsDigit(nextSymbol) then Scientific else Invalid;
        transitionCount[Code(Exponent)] := transitionCount[Code(Exponent)] + 1;
      case Scientific =>
        if !IsDigit(nextSymbol) {
          next := Invalid;
          transitionCount[Code(Invalid)] := transitionCount[Code(Invalid)] + 1;
        }
      case Invalid =>
    }
  }

  // ------------------------------------------------- the language of a state

  predicate AllDigits(w: seq<u8>) {
    forall i :: 0 <= i < |w| ==> IsDigit(w[i])
  }

  /** w without its optional leading sign */
  function Unsigned(w: seq<u8>): seq<u8> {
    if w != [] && IsSign(w[0]) then w[1..] else w
  }

  /** sign? digit+ */
  predicate IsInt(w: seq<u8>) {
    Unsigned(w) != [] && AllDigits(Unsigned(w))
  }

  /** sign? digit* . digit* */
  ghost predicate IsFloat(w: seq<u8>) {
    exists k :: PointAt(Unsigned(w), k)
  }

  /** digit* . digit* with the point at k */
  predicate PointAt(u: seq<u8>, k: int) {
    0 <= k < |u| && u[k] == DOT && AllDigits(u[..k]) && AllDigits(u[k + 1..])
  }

  /** float (e | E) */
  ghost predicate IsMantissaE(w: seq<u8>) {
    w != [] && IsE(w[|w| - 1]) && IsFloat(w[..|w| - 1])
  }

  /** float (e | E) sign */
  ghost predicate IsExponent(w: seq<u8>) {
    w != [] && IsSign(w[|w| - 1]) && IsMantissaE(w[..|w| - 1])
  }

  /** float (e | E) sign digit+ */
  ghost predicate IsScientific(w: seq<u8>) {
    exists k :: ExponentDigitsAt(w, k)
  }

  ghost predicate ExponentDigitsAt(w: seq<u8>, k: int) {
    0 < k < |w| && IsExponent(w[..k]) && AllDigits(w[k..])
  }

  /** The token text each state other than `Invalid` stands for. */
  ghost predicate InLanguage(w: seq<u8>, state: State) {
    match state
    case Start => w == []
    case S1 => |w| == 1 && IsSign(w[0])
    case Int => IsInt(w)
    case Float => IsFloat(w)
    case S2 => IsMantissaE(w)
    case Exponent => IsExponent(w)
    case Scientific => IsScientific(w)
    case Invalid => false
  }

  /** w can still be completed to a number (or is one). */
  ghost predicate Viable(w: seq<u8>) {
    || w == [] || (|w| == 1 && IsSign(w[0])) || IsInt(w) || IsFloat(w) || IsMantissaE(w)
    || IsExponent(w) || IsScientific(w)
  }

  /** The state after a text with no terminator or comma in it. */
  function After(w: seq<u8>): State {
    if w == [] then Start else Next(After(w[..|w| - 1]), w[|w| - 1])
  }

  lemma UnsignedSnoc(w: seq<u8>, c: u8)
    requires w != []
    ensures Unsigned(w + [c]) == Unsigned(w) + [c]
  {
  }

  lemma AllDigitsSnoc(s: seq<u8>, c: u8)
    ensures AllDigits(s + [c]) <==> AllDigits(s) && IsDigit(c)
  {
    var t := s + [c];
    assert t[|s|] == c && forall i :: 0 <= i < |s| ==> t[i] == s[i];
  }

  lemma PointSnoc(u: seq<u8>, k: int, c: u8)
    requires 0 <= k < |u|
    ensures PointAt(u + [c], k) <==> PointAt(u, k) && IsDigit(c)
  {
    var v := u + [c];
    assert v[..k] == u[..k] && v[k + 1..] == u[k + 1..] + [c];
    AllDigitsSnoc(u[k + 1..], c);
  }

  lemma FloatSnoc(w: seq<u8>, c: u8)
    requires IsFloat(w) && IsDigit(c)
    ensures IsFloat(w + [c])
  {
    hide PointAt, AllDigits;
    var k :| PointAt(Unsigned(w), k);
    PointInside(Unsigned(w), k);
    UnsignedSnoc(w, c);
    PointSnoc(Unsigned(w), k, c);
  }

  lemma PointInside(u: seq<u8>, k: int)
    requires PointAt(u, k)
    ensures 0 <= k < |u| && u[k] == DOT && AllDigits(u[..k])
    ensures k < |u| - 1 ==> IsDigit(u[|u| - 1])
  {
    if k < |u| - 1 {
      assert u[k + 1..][|u| - k - 2] == u[|u| - 1];
    }
  }

  lemma FloatDot(w: seq<u8>)
    requires w == [] || (|w| == 1 && IsSign(w[0])) || IsInt(w)
    ensures IsFloat(w + [DOT])
  {
    var v, u := Unsigned(w + [DOT]), Unsigned(w);
    assert v == u + [DOT];
    assert v[..|u|] == u && v[|u| + 1..] == [];
    assert PointAt(v, |u|);
  }

  lemma ScientificSnoc(w: seq<u8>, c: u8)
    requires (IsExponent(w) || IsScientific(w)) && IsDigit(c)
    ensures IsScientific(w + [c])
  {
    hide IsExponent;
    var v := w + [c];
    if IsExponent(w) {
      assert w != [] by { ExponentNonEmpty(w); }
      assert v[..|w|] == w && v[|w|..] == [c];
      assert ExponentDigitsAt(v, |w|);
    } else {
      var k :| ExponentDigitsAt(w, k);
      assert v[..k] == w[..k] && v[k..] == w[k..] + [c];
      AllDigitsSnoc(w[k..], c);
      assert ExponentDigitsAt(v, k);
    }
  }

  lemma ExponentNonEmpty(w: seq<u8>)
    requires IsExponent(w)
    ensures w != []
  {
  }

  /** Every transition extends the language of the state it leaves. */
  lemma Extend(w: seq<u8>, c: u8, state: State)
    requires InLanguage(w, state) && Next(state, c) != Invalid
    ensures InLanguage(w + [c], Next(state, c))
  {
    var v := w + [c];
    assert v[..|w|] == w;
    if c == DOT && (state == Start || state == S1 || state == Int) {
      FloatDot(w);
    } else if state == Float && IsDigit(c) {
      FloatSnoc(w, c);
    } else if state == Exponent || state == Scientific {
      ScientificSnoc(w, c);
    }
  }

  lemma IntShrink(w: seq<u8>) returns (from: State)
    requires w != [] && IsInt(w)
    ensures InLanguage(w[..|w| - 1], from) && Next(from, w[|w| - 1]) == Int
  {
    var p, c := w[..|w| - 1], w[|w| - 1];
    assert w == p + [c];
    var u := Unsigned(w);
    assert c == u[|u| - 1];
    from := if p == [] then Start else if |p| == 1 && IsSign(p[0]) then S1 else Int;
    if from == Int {
      UnsignedSnoc(p, c);
      assert Unsigned(p) == u[..|u| - 1];
    }
  }

  lemma FloatShrink(w: seq<u8>) returns (from: State)
    requires w != [] && IsFloat(w)
    ensures InLanguage(w[..|w| - 1], from) && Next(from, w[|w| - 1]) == Float
  {
    hide PointAt, AllDigits;
    var p, c := w[..|w| - 1], w[|w| - 1];
    assert w == p + [c];
    var u := Unsigned(w);
    var k :| PointAt(u, k);
    PointInside(u, k);
    if p == [] {
      from := Start;
    } else if k == |u| - 1 {
      UnsignedSnoc(p, c);
      assert Unsigned(p) == u[..k];
      from := if Unsigned(p) == [] then S1 else Int;
    } else {
      UnsignedSnoc(p, c);
      PointSnoc(Unsigned(p), k, c);
      from := Float;
    }
  }

  lemma ScientificShrink(w: seq<u8>) returns (from: State)
    requires w != [] && IsScientific(w)
    ensures InLanguage(w[..|w| - 1], from) && Next(from, w[|w| - 1]) == Scientific
  {
    hide IsExponent, AllDigits;
    var p, c := w[..|w| - 1], w[|w| - 1];
    var k :| ExponentDigitsAt(w, k);
    assert w[k..] == w[k..|w| - 1] + [c];
    AllDigitsSnoc(w[k..|w| - 1], c);
    if k == |w| - 1 {
      from := Exponent;
    } else {
      from := Scientific;
      assert p[..k] == w[..k] && p[k..] == w[k..|w| - 1];
      assert ExponentDigitsAt(p, k);
    }
  }

  /** Every non-empty text of a language was reached by a transition. */
  lemma Shrink(w: seq<u8>, state: State) returns (from: State)
    requires w != [] && InLanguage(w, state)
    ensures InLanguage(w[..|w| - 1], from) && Next(from, w[|w| - 1]) == state
  {
    match state {
      case S1 => from := Start;
      case Int => from := IntShrink(w);
      case Float => from := FloatShrink(w);
      case S2 => from := Float;
      case Exponent => from := S2;
      case Scientific => from := ScientificShrink(w);
    }
  }

  /** The machine recognises exactly the languages of its states. */
  lemma {:induction false} StateIsLanguage(w: seq<u8>, state: State)
    requires state != Invalid
    ensures After(w) == state <==> InLanguage(w, state)
    decreases |w|
  {
    if w == [] {
    } else {
      var p, c := w[..|w| - 1], w[|w| - 1];
      assert w == p + [c];
      if InLanguage(w, state) {
        var from := Shrink(w, state);
        StateIsLanguage(p, from);
      }
      if After(w) == state {
        StateIsLanguage(p, After(p));
        Extend(p, c, After(p));
      }
    }
  }

  lemma AfterViable(w: seq<u8>)
    ensures Viable(w) <==> After(w) != Invalid
  {
    StateIsLanguage(w, Start);
    StateIsLanguage(w, S1);
    StateIsLanguage(w, Int);
    StateIsLanguage(w, Float);
    StateIsLanguage(w, S2);
    StateIsLanguage(w, Exponent);
    StateIsLanguage(w, Scientific);
  }

  // ------------------------------------------------------- what a call returns

  /** The first terminator or comma at or after p. */
  function Delimiter(s: seq<u8>, p: nat): (d: nat)
    requires Terminated(s, p)
    ensures p <= d < |s| && (s[d] == 0 || s[d] == COMMA)
    ensures forall k :: p <= k < d ==> s[k] != 0 && s[k] != COMMA
    decreases |s| - p
  {
    if s[p] == 0 || s[p] == COMMA then p else Delimiter(s, p + 1)
  }

  lemma {:induction false} ScanFrom(s: seq<u8>, p: nat, i: nat, track: Counts)
    requires p <= i && Terminated(s, i)
    requires forall k :: p <= k < i ==> s[k] != 0 && s[k] != COMMA
    requires forall k :: p <= k < i ==> After(s[p..k]) != Invalid
    ensures Classified(s, p, i, track)
    decreases |s| - i
  {
    if After(s[p..i]) == Invalid || s[i] == 0 || s[i] == COMMA {
      hide After, Next, Track;
    } else {
      AfterSnoc(s, p, i);
      hide After, Next, Track, Classified, Scan;
      ScanFrom(s, p, i + 1, Track(track, After(s[p..i]), s[i]));
      ClassifiedNext(s, p, i, track);
    }
  }

  /** How the call that has come from p to i ends. */
  ghost predicate Classified(s: seq<u8>, p: nat, i: nat, track: Counts)
    requires p <= i && Terminated(s, i)
  {
    var d, r := Delimiter(s, i), Scan(s, i, After(s[p..i]), track);
    if After(s[p..d]) != Invalid && After(s[p..i]) != Invalid then
      r.state == After(s[p..d]) && r.pos == (if s[d] == COMMA then d + 1 else d)
    else
      r.state == Invalid && i <= r.pos <= d && After(s[p..r.pos]) == Invalid
      && forall k :: p <= k < r.pos ==> After(s[p..k]) != Invalid
  }

  lemma AfterSnoc(s: seq<u8>, p: nat, i: nat)
    requires p <= i < |s|
    ensures After(s[p..i + 1]) == Next(After(s[p..i]), s[i])
  {
    assert s[p..i + 1][..i - p] == s[p..i];
  }

  lemma ClassifiedNext(s: seq<u8>, p: nat, i: nat, track: Counts)
    requires p <= i && Terminated(s, i) && Terminated(s, i + 1)
    requires s[i] != 0 && s[i] != COMMA && After(s[p..i]) != Invalid
    requires After(s[p..i + 1]) == Next(After(s[p..i]), s[i])
    requires Classified(s, p, i + 1, Track(track, After(s[p..i]), s[i]))
    ensures Classified(s, p, i, track)
  {
    if After(s[p..i + 1]) == Invalid {
      AfterStaysInvalid(s, p, i + 1, Delimiter(s, i + 1));
    }
    hide After, Next, Track;
    assert Delimiter(s, i) == Delimiter(s, i + 1);
  }

  lemma {:induction false} AfterStaysInvalid(s: seq<u8>, p: nat, i: nat, j: nat)
    requires p <= i <= j <= |s| && After(s[p..i]) == Invalid
    ensures After(s[p..j]) == Invalid
  {
    if i < j {
      AfterStaysInvalid(s, p, i, j - 1);
      assert s[p..j][..j - 1 - p] == s[p..j - 1];
    }
  }

  /** One call classifies the text up to the next comma or terminator: a number (or
      number prefix) is consumed with its comma and named by its language; anything
      else is consumed up to and including the first character that spoils it. */
  lemma TokenClass(s: seq<u8>, p: nat, track: Counts)
    requires Terminated(s, p)
    ensures var d, r := Delimiter(s, p), Scan(s, p, Start, track);
      if Viable(s[p..d]) then
        InLanguage(s[p..d], r.state) && r.pos == (if s[d] == COMMA then d + 1 else d)
      else
        r.state == Invalid && p < r.pos <= d && !Viable(s[p..r.pos])
        && forall k :: p <= k < r.pos ==> Viable(s[p..k])
  {
    assert s[p..p] == [];
    ScanFrom(s, p, p, track);
    var d, r := Delimiter(s, p), Scan(s, p, Start, track);
    AfterViable(s[p..d]);
    if Viable(s[p..d]) {
      StateIsLanguage(s[p..d], r.state);
    } else {
      AfterViable(s[p..r.pos]);
      forall k | p <= k < r.pos
        ensures Viable(s[p..k])
      {
        AfterViable(s[p..k]);
      }
    }
  }

  // ------------------------------------------------------- what the counters count

  /** Where the reads of a token end: at the terminator, at the comma, which is stepped over, or
      behind the byte that spoils it. */
  function TokenEnd(s: seq<u8>, p: nat, state: State, pos: nat): (e: nat)
    requires p <= pos <= |s|
    ensures p <= e <= pos
  {
    if p < pos && s[pos - 1] == COMMA && state != Invalid then pos - 1 else pos
  }

  /** The token from p is in state k at q and no longer behind it. */
  predicate LeavesAt(s: seq<u8>, p: nat, q: nat, k: State)
    requires p <= q < |s|
  {
    After(s[p..q]) == k && After(s[p..q + 1]) != k
  }

  /** It is in state k behind q and not yet at it. */
  predicate EntersAt(s: seq<u8>, p: nat, q: nat, k: State)
    requires p <= q < |s|
  {
    After(s[p..q]) != k && After(s[p..q + 1]) == k
  }

  /** How often the token from p leaves state k between i and e. */
  function Leaves(s: seq<u8>, p: nat, i: nat, e: nat, k: State): nat
    requires p <= i <= e <= |s|
    decreases e - i
  {
    if i == e then 0 else (if LeavesAt(s, p, i, k) then 1 else 0) + Leaves(s, p, i + 1, e, k)
  }

  function Enters(s: seq<u8>, p: nat, i: nat, e: nat, k: State): nat
    requires p <= i <= e <= |s|
    decreases e - i
  {
    if i == e then 0 else (if EntersAt(s, p, i, k) then 1 else 0) + Enters(s, p, i + 1, e, k)
  }

  /** The token read up to e was spoiled by its first byte, or in its exponent's digits. */
  predicate SpoiledEarlyOrLate(s: seq<u8>, p: nat, e: nat)
    requires p <= e <= |s|
  {
    p < e && After(s[p..e]) == Invalid && (After(s[p..e - 1]) == Start || After(s[p..e - 1]) == Scientific)
  }

  /** The states that are counted by how often they are left. */
  predicate Passing(k: State) {
    k == S1 || k == Int || k == Float || k == S2 || k == Exponent
  }

  /** What a call that has read the token from p on from i to e has added to the counters: one
      for every passing state it left, one for the read in the start state, and one for being
      spoiled there or in scientific notation. */
  ghost predicate Counted(s: seq<u8>, p: nat, i: nat, e: nat, before: Counts, after: Counts)
    requires p <= i <= e <= |s|
  {
    && (forall k :: Passing(k) ==> after[Code(k)] == before[Code(k)] + Leaves(s, p, i, e, k))
    && after[Code(Start)] == before[Code(Start)] + (if i == p < e then 1 else 0)
    && after[Code(Invalid)] == before[Code(Invalid)] + (if i < e && SpoiledEarlyOrLate(s, p, e) then 1 else 0)
    && after[Code(Scientific)] == before[Code(Scientific)]
  }

  lemma CountedNothing(s: seq<u8>, p: nat, i: nat, before: Counts)
    requires p <= i <= |s|
    ensures Counted(s, p, i, i, before, before)
  {
  }

  /** One read in state k counts as the switch does. */
  lemma ReadCounted(s: seq<u8>, p: nat, i: nat, e: nat, before: Counts, after: Counts)
    requires p <= i < e <= |s|
    requires After(s[p..i]) == Start <==> i == p
    requires After(s[p..i]) != Invalid && After(s[p..i + 1]) == Next(After(s[p..i]), s[i])
    requires After(s[p..i + 1]) == Invalid ==> e == i + 1
    requires Counted(s, p, i + 1, e, Track(before, After(s[p..i]), s[i]), after)
    ensures Counted(s, p, i, e, before, after)
  {
    hide After, Next;
    var k0 := After(s[p..i]);
    forall k | Passing(k)
      ensures after[Code(k)] == before[Code(k)] + Leaves(s, p, i, e, k)
    {
      assert LeavesAt(s, p, i, k) <==> k == k0 && Next(k0, s[i]) != k0;
    }
  }

  /** Only the empty text leaves the machine in its start state. */
  lemma AtStart(w: seq<u8>)
    ensures After(w) == Start <==> w == []
  {
  }

  lemma {:induction false} ScanCounts(s: seq<u8>, p: nat, i: nat, track: Counts)
    requires p <= i && Terminated(s, i)
    requires forall k :: p <= k < i ==> s[k] != COMMA
    ensures var r := Scan(s, i, After(s[p..i]), track);
      && r.pos <= |s| && i <= TokenEnd(s, p, r.state, r.pos)
      && Counted(s, p, i, TokenEnd(s, p, r.state, r.pos), track, r.track)
      && r.state == After(s[p..TokenEnd(s, p, r.state, r.pos)])
    decreases |s| - i
  {
    if s[i] == 0 || After(s[p..i]) == Invalid || s[i] == COMMA {
      CountedNothing(s, p, i, track);
      hide After, Next, Track, Counted;
    } else {
      AfterSnoc(s, p, i);
      AtStart(s[p..i]);
      hide After, Next, Track, Counted, Leaves, SpoiledEarlyOrLate;
      ScanCounts(s, p, i + 1, Track(track, After(s[p..i]), s[i]));
      var r := Scan(s, i, After(s[p..i]), track);
      ReadCounted(s, p, i, TokenEnd(s, p, r.state, r.pos), track, r.track);
    }
  }

  /** The same for a whole call. */
  lemma WholeCounts(s: seq<u8>, p: nat, track: Counts)
    requires Terminated(s, p)
    ensures var r := Scan(s, p, Start, track);
      r.pos <= |s|
      && var e := TokenEnd(s, p, r.state, r.pos);
      r.state == After(s[p..e]) && Counted(s, p, p, e, track, r.track)
  {
    assert s[p..p] == [];
    hide Scan, TokenEnd, Counted;
    ScanCounts(s, p, p, track);
  }

  /** One turn of the loop. */
  lemma ScanTurn(s: seq<u8>, p: nat, state: State, track: Counts)
    requires Terminated(s, p)
    ensures p < |s|
    ensures s[p] == 0 || state == Invalid ==> Scan(s, p, state, track) == Scanned(state, p, track)
    ensures s[p] != 0 && state != Invalid ==> Terminated(s, p + 1)
    ensures s[p] == COMMA && state != Invalid ==> Scan(s, p, state, track) == Scanned(state, p + 1, track)
    ensures s[p] != 0 && s[p] != COMMA && state != Invalid ==>
      Scan(s, p, state, track) == Scan(s, p + 1, Next(state, s[p]), Track(track, state, s[p]))
  {
    hide Next, Track;
  }

  /** One call: the state of the token it has read, where it stops, and what it has counted. */
  method CoreStateTransition(buf: array<u8>, start: nat, transitionCount: array<nat>) returns (state: State, str: nat)
    requires transitionCount.Length == 8 && Terminated(buf[..], start)
    modifies transitionCount
    ensures Terminated(buf[..], str)
    ensures Scanned(state, str, transitionCount[..]) == Scan(buf[..], start, Start, old(transitionCount[..]))
    ensures start <= str <= buf.Length
    ensures var e := TokenEnd(buf[..], start, state, str);
      && state == After(buf[start..e])
      && Counted(buf[..], start, start, e, old(transitionCount[..]), transitionCount[..])
  {
    hide *;
    str := start;
    state := Start;
    ghost var text := buf[..];
    ghost var goal := Scan(text, start, Start, transitionCount[..]);
    WholeCounts(text, start, transitionCount[..]);
    ScanTurn(text, str, state, transitionCount[..]);
    while buf[str] != 0 && state != Invalid
      invariant Terminated(text, str) && str < buf.Length && buf[..] == text
      invariant Scan(text, str, state, transitionCount[..]) == goal
      invariant text[str] == 0 || state == Invalid ==> Scanned(state, str, transitionCount[..]) == goal
      decreases buf.Length - str
    {
      var nextSymbol := buf[str];
      assert nextSymbol == text[str];
      ScanTurn(text, str, state, transitionCount[..]);
      if nextSymbol == COMMA {
        str := str + 1;
        break;
      }
      state := Switch(state, nextSymbol, transitionCount);
      str := str + 1;
      ScanTurn(text, str, state, transitionCount[..]);
    }
    assert buf[start..TokenEnd(buf[..], start, state, str)] == text[start..TokenEnd(text, start, state, str)];
  }

  // ------------------------------------------------------- counts of a whole run

  function Sum(c: Counts): nat {
    c[0] + c[1] + c[2] + c[3] + c[4] + c[5] + c[6] + c[7]
  }

  /** From a state other than `Start`, scanning never returns to it nor counts it again. */
  lemma {:induction false} ScanNotStart(s: seq<u8>, p: nat, state: State, track: Counts)
    requires Terminated(s, p) && state != Start
    ensures var r := Scan(s, p, state, track);
      r.state != Start && r.track[0] == track[0] && r.track[7] == track[7]
    decreases |s| - p
  {
    if s[p] == 0 || state == Invalid || s[p] == COMMA {
    } else {
      ScanNotStart(s, p + 1, Next(state, s[p]), Track(track, state, s[p]));
    }
  }

  /** Every token is either empty or counted once as having left `Start`, and
      `Scientific` is never counted as left: both hold over a whole run. */
  lemma {:induction false} RunConserves(s: seq<u8>, p: nat, t: Tally)
    requires Terminated(s, p)
    requires t.track[0] + t.final[0] == Sum(t.final) && t.track[7] == 0
    ensures var u := ScanAll(s, p, t);
      u.track[0] + u.final[0] == Sum(u.final) && u.track[7] == 0
    decreases |s| - p
  {
    if s[p] != 0 {
      var r := Scan(s, p, Start, t.track);
      if s[p] != COMMA {
        ScanNotStart(s, p + 1, Next(Start, s[p]), Track(t.track, Start, s[p]));
      }
      assert Sum(Inc(t.final, r.state)) == Sum(t.final) + 1;
      RunConserves(s, r.pos, Tally(Inc(t.final, r.state), r.track));
    }
  }

  /** Where a call goes and what it answers does not depend on the counters. */
  lemma {:induction false} ScanApart(s: seq<u8>, p: nat, state: State, t1: Counts, t2: Counts)
    requires Terminated(s, p)
    ensures var r1, r2 := Scan(s, p, state, t1), Scan(s, p, state, t2); r1.state == r2.state && r1.pos == r2.pos
    decreases |s| - p
  {
    hide Next, Track;
    if s[p] != 0 && state != Invalid && s[p] != COMMA {
      ScanApart(s, p + 1, Next(state, s[p]), Track(t1, state, s[p]), Track(t2, state, s[p]));
    }
  }

  /** The tokens of a text, each with the place where its reads end. */
  function Tokens(s: seq<u8>, p: nat): (ts: seq<(nat, nat)>)
    requires Terminated(s, p)
    ensures AreTokens(s, ts)
    decreases |s| - p
  {
    if s[p] == 0 then [] else
      var r := Scan(s, p, Start, NO_COUNTS);
      [(p, TokenEnd(s, p, r.state, r.pos))] + Tokens(s, r.pos)
  }

  predicate AreTokens(s: seq<u8>, ts: seq<(nat, nat)>) {
    forall i :: 0 <= i < |ts| ==> ts[i].0 <= ts[i].1 <= |s|
  }

  /** How often state k is entered, and how often left, in all tokens. */
  function AllEnters(s: seq<u8>, ts: seq<(nat, nat)>, k: State): nat
    requires AreTokens(s, ts)
  {
    if ts == [] then 0 else Enters(s, ts[0].0, ts[0].0, ts[0].1, k) + AllEnters(s, ts[1..], k)
  }

  function AllLeaves(s: seq<u8>, ts: seq<(nat, nat)>, k: State): nat
    requires AreTokens(s, ts)
  {
    if ts == [] then 0 else Leaves(s, ts[0].0, ts[0].0, ts[0].1, k) + AllLeaves(s, ts[1..], k)
  }

  function AllReads(ts: seq<(nat, nat)>): nat {
    if ts == [] then 0 else (if ts[0].0 < ts[0].1 then 1 else 0) + AllReads(ts[1..])
  }

  function AllSpoiled(s: seq<u8>, ts: seq<(nat, nat)>): nat
    requires AreTokens(s, ts)
  {
    if ts == [] then 0 else (if SpoiledEarlyOrLate(s, ts[0].0, ts[0].1) then 1 else 0) + AllSpoiled(s, ts[1..])
  }

  /** How many tokens end in state k. */
  function AllEnds(s: seq<u8>, ts: seq<(nat, nat)>, k: State): nat
    requires AreTokens(s, ts)
  {
    if ts == [] then 0 else (if After(s[ts[0].0..ts[0].1]) == k then 1 else 0) + AllEnds(s, ts[1..], k)
  }

  /** What a run over these tokens adds to both tables. */
  ghost predicate RunCounted(s: seq<u8>, ts: seq<(nat, nat)>, t: Tally, u: Tally)
    requires AreTokens(s, ts)
  {
    && (forall k :: u.final[Code(k)] == t.final[Code(k)] + AllEnds(s, ts, k))
    && (forall k :: Passing(k) ==> u.track[Code(k)] == t.track[Code(k)] + AllLeaves(s, ts, k))
    && u.track[Code(Start)] == t.track[Code(Start)] + AllReads(ts)
    && u.track[Code(Invalid)] == t.track[Code(Invalid)] + AllSpoiled(s, ts)
    && u.track[Code(Scientific)] == t.track[Code(Scientific)]
  }

  /** Both tables after a whole run, counted in the text. */
  lemma {:induction false} RunCounts(s: seq<u8>, p: nat, t: Tally)
    requires Terminated(s, p)
    ensures RunCounted(s, Tokens(s, p), t, ScanAll(s, p, t))
    decreases |s| - p
  {
    hide Scan, ScanAll, Inc, TokenEnd, Tokens, RunCounted, Counted, After, AreTokens;
    if s[p] == 0 {
      NoTokens(s, p, t);
    } else {
      ScanAllNext(s, p, t);
      var r := Scan(s, p, Start, t.track);
      FirstToken(s, p, t.track);
      WholeCounts(s, p, t.track);
      RunCounts(s, r.pos, Tally(Inc(t.final, r.state), r.track));
      TokenCounted(s, p, TokenEnd(s, p, r.state, r.pos), Tokens(s, r.pos), t, r,
        ScanAll(s, r.pos, Tally(Inc(t.final, r.state), r.track)));
    }
  }

  lemma NoTokens(s: seq<u8>, p: nat, t: Tally)
    requires Terminated(s, p) && s[p] == 0
    ensures RunCounted(s, Tokens(s, p), t, ScanAll(s, p, t))
  {
    hide Code;
  }

  lemma FirstToken(s: seq<u8>, p: nat, track: Counts)
    requires Terminated(s, p) && s[p] != 0
    ensures var r := Scan(s, p, Start, track);
      p <= r.pos <= |s| && Tokens(s, p) == [(p, TokenEnd(s, p, r.state, r.pos))] + Tokens(s, r.pos)
  {
    ScanApart(s, p, Start, track, NO_COUNTS);
    hide Scan, TokenEnd;
  }

  lemma TokenCounted(s: seq<u8>, p: nat, e: nat, ts: seq<(nat, nat)>, t: Tally, r: Scanned, u: Tally)
    requires p <= e <= |s| && r.state == After(s[p..e]) && Counted(s, p, p, e, t.track, r.track)
    requires AreTokens(s, ts) && RunCounted(s, ts, Tally(Inc(t.final, r.state), r.track), u)
    ensures AreTokens(s, [(p, e)] + ts) && RunCounted(s, [(p, e)] + ts, t, u)
  {
    var all := [(p, e)] + ts;
    assert all[1..] == ts;
    hide After, Leaves, SpoiledEarlyOrLate, AllLeaves, AllEnds, AllReads, AllSpoiled;
    FirstCounts(s, p, e, ts);
  }

  lemma FirstCounts(s: seq<u8>, p: nat, e: nat, ts: seq<(nat, nat)>)
    requires p <= e <= |s| && AreTokens(s, ts)
    ensures var all := [(p, e)] + ts;
      && AreTokens(s, all)
      && (forall k :: AllEnds(s, all, k) == (if After(s[p..e]) == k then 1 else 0) + AllEnds(s, ts, k))
      && (forall k :: AllLeaves(s, all, k) == Leaves(s, p, p, e, k) + AllLeaves(s, ts, k))
      && AllReads(all) == (if p < e then 1 else 0) + AllReads(ts)
      && AllSpoiled(s, all) == (if SpoiledEarlyOrLate(s, p, e) then 1 else 0) + AllSpoiled(s, ts)
  {
    var all := [(p, e)] + ts;
    assert all[1..] == ts;
    hide After, Leaves, SpoiledEarlyOrLate;
  }

  lemma {:induction false} TokenFlow(s: seq<u8>, p: nat, i: nat, e: nat, k: State)
    requires p <= i <= e <= |s|
    ensures Enters(s, p, i, e, k) + (if After(s[p..i]) == k then 1 else 0)
      == Leaves(s, p, i, e, k) + (if After(s[p..e]) == k then 1 else 0)
    decreases e - i
  {
    hide After;
    if i < e {
      TokenFlow(s, p, i + 1, e, k);
    }
  }

  /** Every state but the first is left or ended in as often as it is entered. */
  lemma {:induction false} AllFlow(s: seq<u8>, ts: seq<(nat, nat)>, k: State)
    requires AreTokens(s, ts) && k != Start
    ensures AllEnters(s, ts, k) == AllLeaves(s, ts, k) + AllEnds(s, ts, k)
  {
    if ts != [] {
      AllFlow(s, ts[1..], k);
      assert s[ts[0].0..ts[0].0] == [];
      AtStart(s[ts[0].0..ts[0].0]);
      hide After, Enters, Leaves;
      TokenFlow(s, ts[0].0, ts[0].0, ts[0].1, k);
    }
  }

  /** Over a whole run: what both tables have gained for a passing state is how often a token has
      entered it. */
  lemma RunBalance(s: seq<u8>, p: nat, t: Tally, k: State)
    requires Terminated(s, p) && Passing(k)
    ensures var u := ScanAll(s, p, t);
      u.track[Code(k)] + u.final[Code(k)]
      == t.track[Code(k)] + t.final[Code(k)] + AllEnters(s, Tokens(s, p), k)
  {
    RunCounts(s, p, t);
    AllFlow(s, Tokens(s, p), k);
    hide *;
    RunGains(s, Tokens(s, p), t, ScanAll(s, p, t), k);
  }

  lemma RunGains(s: seq<u8>, ts: seq<(nat, nat)>, t: Tally, u: Tally, k: State)
    requires AreTokens(s, ts) && RunCounted(s, ts, t, u) && Passing(k)
    ensures u.track[Code(k)] == t.track[Code(k)] + AllLeaves(s, ts, k)
    ensures u.final[Code(k)] == t.final[Code(k)] + AllEnds(s, ts, k)
  {
  }
}
