/** The image builder `vhtocoe.py`: a file of address and byte lines becomes two dense
    memory images, one 32-bit word to a line, most significant byte first.

    `Run` is what the script does with any lines; `SectionImage` and `LoadedImage` say when
    that is an image of the memory. */
module CoeImage {
  import opened NumberFormat

  /** A line of the input: `@` and an address, or bytes in hexadecimal. */
  datatype Line = Address(address: nat) | Data(bytes: seq<string>)

  const RADIX_LINE := "memory_initialization_radix = 16;\n"
  const VECTOR_LINE := "memory_initialization_vector =\n"
  const COE_HEADER := RADIX_LINE + VECTOR_LINE

  // ------------------------------------------------------------------------ words

  function ByteAt(f: seq<string>, i: nat): string {
    if i < |f| then f[i] else "00"
  }

  /** Word k of an image: bytes 4k to 4k + 3, the last one first. */
  function WordText(f: seq<string>, k: nat): string {
    ByteAt(f, 4 * k + 3) + ByteAt(f, 4 * k + 2) + ByteAt(f, 4 * k + 1) + ByteAt(f, 4 * k)
  }

  function Zeros(n: int): (z: seq<string>)
    ensures |z| == if n > 0 then n else 0
  {
    seq(if n > 0 then n else 0, i => "00")
  }

  function ZeroWords(n: int): (z: seq<string>)
    ensures |z| == if n > 0 then n else 0
  {
    seq(if n > 0 then n else 0, i => "00000000")
  }

  function WordCount(bytes: nat): nat {
    (bytes + 3) / 4
  }

  /** As many words as the bytes reach into. */
  function Words(f: seq<string>): (ws: seq<string>)
    ensures |ws| == WordCount(|f|)
    ensures forall k :: 0 <= k < |ws| ==> ws[k] == WordText(f, k)
  {
    seq(WordCount(|f|), k requires 0 <= k => WordText(f, k))
  }

  /** The buffer: each word with a comma and a newline. */
  function Listed(ws: seq<string>): string {
    if ws == [] then "" else Listed(ws[..|ws| - 1]) + ws[|ws| - 1] + ",\n"
  }

  /** The finished file: words separated by commas, a semicolon behind the last. */
  function CoeFile(ws: seq<string>): string {
    COE_HEADER + Separated(ws) + ";"
  }

  function Separated(ws: seq<string>): string {
    if ws == [] then ""
    else if |ws| == 1 then ws[0]
    else Separated(ws[..|ws| - 1]) + ",\n" + ws[|ws| - 1]
  }

  lemma {:induction false} ListedSeparated(ws: seq<string>)
    ensures ws != [] ==> Listed(ws) == Separated(ws) + ",\n"
  {
    if |ws| > 1 {
      ListedSeparated(ws[..|ws| - 1]);
    }
  }

  // ------------------------------------------------------------- reading the file back

  /** What stands in front of the first c, and behind it. */
  function Before(t: string, c: char): string {
    if t == "" || t[0] == c then "" else [t[0]] + Before(t[1..], c)
  }

  function Behind(t: string, c: char): string {
    if t == "" then "" else if t[0] == c then t[1..] else Behind(t[1..], c)
  }

  lemma {:induction false} SplitAt(a: string, c: char, b: string)
    requires c !in a
    ensures Before(a + [c] + b, c) == a && Behind(a + [c] + b, c) == b
  {
    var t := a + [c] + b;
    if a == "" {
      assert t == [c] + b && t[1..] == b;
    } else {
      SplitAt(a[1..], c, b);
      assert t[1..] == a[1..] + [c] + b && t[0] == a[0];
    }
  }

  /** The number a file names as its radix: the digits between the first equals sign and the
      semicolon behind it. */
  function RadixOf(t: string): int {
    NumberRead(Before(Behind(t, '='), ';'), 0)
  }

  /** The decimal number of the digits in a text, blanks aside. */
  function NumberRead(t: string, acc: int): int {
    if t == "" then acc
    else NumberRead(t[1..], if t[0] == ' ' then acc else 10 * acc + (t[0] as int - '0' as int))
  }

  /** The entries of its vector: behind the second equals sign, between commas, up to the
      semicolon, line ends aside. */
  function VectorOf(t: string): seq<string> {
    Entries(Behind(Behind(t, '='), '='), "")
  }

  function Entries(t: string, entry: string): seq<string> {
    if t == "" || t[0] == ';' then [entry]
    else if t[0] == ',' then [entry] + Entries(t[1..], "")
    else if t[0] == '\n' then Entries(t[1..], entry)
    else Entries(t[1..], entry + [t[0]])
  }

  /** A word has no separator in it. */
  predicate IsPlain(w: string) {
    forall i :: 0 <= i < |w| ==> w[i] != ',' && w[i] != ';' && w[i] != '\n'
  }

  predicate ArePlain(ws: seq<string>) {
    forall k :: 0 <= k < |ws| ==> IsPlain(ws[k])
  }

  lemma {:induction false} EntryRead(w: string, rest: string, entry: string)
    requires IsPlain(w)
    ensures Entries(w + rest, entry) == Entries(rest, entry + w)
  {
    if w == "" {
      assert w + rest == rest && entry + w == entry;
    } else {
      EntryRead(w[1..], rest, entry + [w[0]]);
      assert (w + rest)[1..] == w[1..] + rest && entry + [w[0]] + w[1..] == entry + w;
    }
  }

  lemma {:induction false} EntriesRead(ws: seq<string>, rest: string)
    requires ArePlain(ws) && ws != []
    ensures Entries(Separated(ws) + rest, "") == ws[..|ws| - 1] + Entries(rest, ws[|ws| - 1])
    decreases |ws|
  {
    var w := ws[|ws| - 1];
    assert IsPlain(w);
    if |ws| == 1 {
      EntryRead(w, rest, "");
      assert "" + w == w && ws[..0] == [];
    } else {
      var front := ws[..|ws| - 1];
      assert ArePlain(front);
      EntriesRead(front, ",\n" + (w + rest));
      assert Separated(ws) + rest == Separated(front) + (",\n" + (w + rest));
      CommaRead(w + rest, front[|front| - 1]);
      EntryRead(w, rest, "");
      assert "" + w == w;
      assert front[..|front| - 1] + [front[|front| - 1]] == front;
    }
  }

  lemma CommaRead(rest: string, entry: string)
    ensures Entries(",\n" + rest, entry) == [entry] + Entries(rest, "")
  {
    var t := ",\n" + rest;
    assert t[1..] == "\n" + rest && t[1..][1..] == rest;
  }

  /** The finished file names the radix that its words are written in, and its vector is the
      words; without any it has one empty entry. */
  lemma CoeReadsBack(ws: seq<string>)
    requires ArePlain(ws)
    ensures RadixOf(CoeFile(ws)) == 16 && VectorOf(CoeFile(ws)) == if ws == [] then [""] else ws
  {
    hide *;
    var body := Separated(ws) + ";";
    CoeFileIs(ws);
    HeaderSplit(body);
    if ws == [] {
      LastRead("", body);
    } else {
      EntriesRead(ws, ";");
      LastRead(ws[|ws| - 1], body);
      assert ws[..|ws| - 1] + [ws[|ws| - 1]] == ws;
    }
  }

  lemma CoeFileIs(ws: seq<string>)
    ensures CoeFile(ws) == COE_HEADER + (Separated(ws) + ";")
    ensures ws == [] ==> Separated(ws) + ";" == ";"
  {
  }

  lemma LastRead(entry: string, body: string)
    ensures Entries(";", entry) == [entry] && Entries("\n" + body, "") == Entries(body, "")
  {
    assert ("\n" + body)[1..] == body;
  }

  lemma HeaderSplit(body: string)
    ensures RadixOf(COE_HEADER + body) == 16
    ensures VectorOf(COE_HEADER + body) == Entries("\n" + body, "")
  {
    var first, radix, second := HeaderParts();
    HeaderSplits(first, radix, second, "\n" + body);
    hide *;
    assert COE_HEADER + body == first + ['='] + radix + [';'] + second + ['='] + ("\n" + body);
  }

  lemma HeaderParts() returns (first: string, radix: string, second: string)
    ensures COE_HEADER == first + ['='] + radix + [';'] + second + ['='] + "\n"
    ensures '=' !in first && '=' !in radix && ';' !in radix && '=' !in second
    ensures NumberRead(radix, 0) == 16
  {
    hide *;
    HeaderLines();
    first, radix := RadixLine();
    var name := VectorLine();
    second := "\n" + name;
    assert first + ['='] + radix + [';'] + "\n" + (name + ['='] + "\n")
      == first + ['='] + radix + [';'] + ("\n" + name) + ['='] + "\n";
  }

  lemma HeaderLines()
    ensures COE_HEADER == RADIX_LINE + VECTOR_LINE
  {
  }

  lemma RadixLine() returns (name: string, radix: string)
    ensures RADIX_LINE == name + ['='] + radix + [';'] + "\n"
    ensures '=' !in name && '=' !in radix && ';' !in radix && NumberRead(radix, 0) == 16
  {
    name, radix := RADIX_LINE[..28], " 16";
    hide NumberRead;
    assert RADIX_LINE[28] == '=';
    SixteenRead();
  }

  lemma SixteenRead()
    ensures NumberRead(" 16", 0) == 16
  {
    assert " 16"[1..] == "16" && "16"[1..] == "6" && "6"[1..] == "";
    assert NumberRead("6", 1) == 16;
  }

  lemma VectorLine() returns (name: string)
    ensures VECTOR_LINE == name + ['='] + "\n" && '=' !in name
  {
    name := VECTOR_LINE[..29];
    assert VECTOR_LINE[29] == '=';
  }

  lemma HeaderSplits(first: string, radix: string, second: string, body: string)
    requires '=' !in first && '=' !in radix && ';' !in radix && '=' !in second
    ensures var t := first + ['='] + radix + [';'] + second + ['='] + body;
      RadixOf(t) == NumberRead(radix, 0) && VectorOf(t) == Entries(body, "")
  {
    hide Before, Behind, Entries, NumberRead;
    var t := first + ['='] + radix + [';'] + second + ['='] + body;
    var u := second + ['='] + body;
    assert t == first + ['='] + (radix + [';'] + u);
    SplitAt(first, '=', radix + [';'] + u);
    SplitAt(radix, ';', u);
    assert radix + [';'] + u == (radix + [';'] + second) + ['='] + body;
    SplitAt(radix + [';'] + second, '=', body);
  }

  // ---------------------------------------------------------------- little-endian

  function HexDigit(c: char): nat {
    if '0' <= c <= '9' then c as nat - '0' as nat
    else if 'a' <= c <= 'f' then c as nat - 'a' as nat + 10
    else if 'A' <= c <= 'F' then c as nat - 'A' as nat + 10
    else 0
  }

  function HexValue(t: string): nat {
    if t == "" then 0 else 16 * HexValue(t[..|t| - 1]) + HexDigit(t[|t| - 1])
  }

  lemma {:induction false} HexAppend(t: string, b: string)
    requires |b| == 2
    ensures HexValue(t + b) == 256 * HexValue(t) + HexValue(b)
  {
    assert (t + b)[..|t| + 1] == t + [b[0]];
    assert (t + [b[0]])[..|t|] == t;
    assert b[..1] == [b[0]] && [b[0]][..0] == "";
    assert HexValue([b[0]]) == HexDigit(b[0]);
  }

  /** Read as a hexadecimal number, word k has byte 4k as its lowest. */
  lemma {:induction false} WordLittleEndian(f: seq<string>, k: nat)
    requires forall i :: 0 <= i < |f| ==> |f[i]| == 2
    ensures HexValue(WordText(f, k)) == HexValue(ByteAt(f, 4 * k)) + 0x100 * HexValue(ByteAt(f, 4 * k + 1))
                                        + 0x1_0000 * HexValue(ByteAt(f, 4 * k + 2))
                                        + 0x100_0000 * HexValue(ByteAt(f, 4 * k + 3))
  {
    var b0, b1, b2, b3 := ByteAt(f, 4 * k), ByteAt(f, 4 * k + 1), ByteAt(f, 4 * k + 2), ByteAt(f, 4 * k + 3);
    HexAppend(b3, b2);
    HexAppend(b3 + b2, b1);
    HexAppend(b3 + b2 + b1, b0);
  }

  /** Behind a word boundary words just follow. */
  lemma WordsAppend(f: seq<string>, bytes: seq<string>)
    requires |f| % 4 == 0
    ensures Words(f + bytes) == Words(f) + Words(bytes)
  {
    var n := |f| / 4;
    CountAppend(n, |bytes|);
    assert |f| == 4 * n;
    hide WordText, Words, WordCount;
    forall k | 0 <= k < n
      ensures WordText(f + bytes, k) == WordText(f, k)
    {
      WordKept(f, bytes, k);
    }
    forall k | n <= k < |Words(f + bytes)|
      ensures WordText(f + bytes, k) == WordText(bytes, k - n)
    {
      WordMoved(f, bytes, k, n);
    }
  }

  lemma CountAppend(n: nat, bytes: nat)
    ensures WordCount(4 * n + bytes) == n + WordCount(bytes) && WordCount(4 * n) == n
  {
  }

  lemma WordKept(f: seq<string>, bytes: seq<string>, k: nat)
    requires 4 * k + 4 <= |f|
    ensures WordText(f + bytes, k) == WordText(f, k)
  {
  }

  lemma WordMoved(f: seq<string>, bytes: seq<string>, k: nat, n: nat)
    requires |f| == 4 * n && n <= k
    ensures WordText(f + bytes, k) == WordText(bytes, k - n)
  {
    hide ByteAt;
    ByteMoved(f, bytes, 4 * k);
    ByteMoved(f, bytes, 4 * k + 1);
    ByteMoved(f, bytes, 4 * k + 2);
    ByteMoved(f, bytes, 4 * k + 3);
  }

  lemma ByteMoved(f: seq<string>, bytes: seq<string>, i: nat)
    requires i >= |f|
    ensures ByteAt(f + bytes, i) == ByteAt(bytes, i - |f|)
  {
  }

  /** A gap up to a word boundary adds words of zeros; the bytes that complete the last word
      are zeros already. */
  lemma WordsAcrossGap(f: seq<string>, gap: nat)
    requires (|f| + gap) % 4 == 0
    ensures Words(f + Zeros(gap)) == Words(f) + ZeroWords(gap / 4)
  {
    GapCount(|f|, gap);
    hide WordText, Words, WordCount;
    forall k | 0 <= k < |Words(f)|
      ensures WordText(f + Zeros(gap), k) == WordText(f, k)
    {
      WordPadded(f, gap, k);
    }
    forall k | |Words(f)| <= k < |Words(f + Zeros(gap))|
      ensures WordText(f + Zeros(gap), k) == "00000000"
    {
      WordOfZeros(f, gap, k);
    }
  }

  lemma GapCount(n: nat, gap: nat)
    requires (n + gap) % 4 == 0
    ensures WordCount(n + gap) == WordCount(n) + gap / 4 && 4 * WordCount(n) >= n
  {
  }

  lemma WordPadded(f: seq<string>, n: nat, k: nat)
    ensures WordText(f + Zeros(n), k) == WordText(f, k)
  {
  }

  lemma WordOfZeros(f: seq<string>, gap: nat, k: nat)
    requires 4 * k >= |f|
    ensures WordText(f + Zeros(gap), k) == "00000000"
  {
    assert forall i :: i >= |f| ==> ByteAt(f + Zeros(gap), i) == "00";
  }

  // -------------------------------------------------------------------- the script

  /** Where the script stands: the address, the memory it is filling, the words so far, and
      the words of the instruction memory's file, once it is written. */
  datatype State = State(currAddr: nat, imem: bool, dmem: bool, words: seq<string>, file: Option<seq<string>>)

  /** One line: the instruction memory's address opens it, the data memory's closes it and
      starts over, any other address leaves words of zeros; bytes make words. */
  function Step(s: State, line: Line, imemBase: nat, dmemBase: nat): State {
    match line
    case Address(a) =>
      if !s.imem && !s.dmem then s.(currAddr := a, imem := a == imemBase)
      else if a == dmemBase then State(a, false, true, [], Some(s.words))
      else if a > s.currAddr then s.(currAddr := a, words := s.words + ZeroWords((a - s.currAddr) / 4))
      else s
    case Data(bytes) => s.(currAddr := s.currAddr + |bytes|, words := s.words + Words(bytes))
  }

  function Run(s: State, ls: seq<Line>, imemBase: nat, dmemBase: nat): State {
    if ls == [] then s
    else Step(Run(s, ls[..|ls| - 1], imemBase, dmemBase), ls[|ls| - 1], imemBase, dmemBase)
  }

  function Start(imemBase: nat): State {
    State(imemBase, false, false, [], None)
  }

  function FileText(file: Option<seq<string>>): Option<string> {
    match file
    case None => None
    case Some(ws) => Some(CoeFile(ws))
  }

  /** The script's variables show a state. */
  predicate Shows(s: State, currAddr: nat, imem: bool, dmem: bool, buffer: string, file: Option<string>) {
    && currAddr == s.currAddr && imem == s.imem && dmem == s.dmem
    && buffer == Listed(s.words) && file == FileText(s.file)
  }

  /** `arr.reverse()` and `''.join(arr)` */
  function Joined(arr: seq<string>): string {
    if arr == [] then "" else Joined(arr[1..]) + arr[0]
  }

  lemma JoinedFour(arr: seq<string>)
    requires |arr| == 4
    ensures Joined(arr) == arr[3] + arr[2] + arr[1] + arr[0]
  {
    assert arr[1..][1..] == arr[2..] && arr[2..][1..] == arr[3..] && arr[3..][1..] == [];
    assert Joined(arr[3..]) == "" + arr[3] == arr[3];
    assert Joined(arr[2..]) == Joined(arr[3..]) + arr[2];
    assert Joined(arr[1..]) == Joined(arr[2..]) + arr[1];
  }

  /** Whole words first, then the bytes left over, filled up with zeros. */
  method DataLine(bytes: seq<string>, currAddr0: nat, buffer0: string,
                  ghost ws: seq<string>) returns (currAddr: nat, buffer: string)
    requires buffer0 == Listed(ws)
    ensures currAddr == currAddr0 + |bytes| && buffer == Listed(ws + Words(bytes))
  {
    hide Listed, Joined, Words, WordText;
    currAddr, buffer := currAddr0, buffer0;
    var left := |bytes|;
    var i := 0;
    assert ws + Words(bytes[..0]) == ws;
    while i < |bytes| / 4
      invariant 0 <= i <= |bytes| / 4 && left == |bytes| - 4 * i && currAddr == currAddr0 + 4 * i
      invariant buffer == Listed(ws + Words(bytes[..4 * i]))
    {
      var arr := bytes[4 * i..4 * i + 4];
      buffer := buffer + Joined(arr) + ",\n";
      assert arr + Zeros(0) == arr;
      OneWord(ws, bytes[..4 * i], arr);
      assert bytes[..4 * i] + arr == bytes[..4 * i + 4];
      left := left - 4;
      currAddr := currAddr + 4;
      i := i + 1;
    }
    if left > 0 {
      currAddr := currAddr + left;
      var arr := bytes[|bytes| - left..] + Zeros(4 - left);
      buffer := buffer + Joined(arr) + ",\n";
      OneWord(ws, bytes[..4 * i], bytes[4 * i..]);
      assert bytes[..4 * i] + bytes[4 * i..] == bytes;
    } else {
      assert bytes[..4 * i] == bytes;
    }
  }

  /** Up to four bytes behind a word boundary append one line. */
  lemma OneWord(ws: seq<string>, f: seq<string>, part: seq<string>)
    requires |f| % 4 == 0 && 0 < |part| <= 4
    ensures Listed(ws + Words(f + part)) == Listed(ws + Words(f)) + Joined(part + Zeros(4 - |part|)) + ",\n"
  {
    hide *;
    WordsAppend(f, part);
    LastWord(part);
    var w := Joined(part + Zeros(4 - |part|));
    ListedSnoc(ws + Words(f), w);
    Regroup(ws, Words(f), [w]);
  }

  lemma Regroup(a: seq<string>, b: seq<string>, c: seq<string>)
    ensures a + (b + c) == a + b + c
  {
  }

  lemma ListedSnoc(ws: seq<string>, w: string)
    ensures Listed(ws + [w]) == Listed(ws) + w + ",\n"
  {
    assert (ws + [w])[..|ws|] == ws;
  }

  lemma LastWord(part: seq<string>)
    requires 0 < |part| <= 4
    ensures Words(part) == [Joined(part + Zeros(4 - |part|))]
  {
    var arr := part + Zeros(4 - |part|);
    JoinedFour(arr);
    FilledBytes(part);
    assert WordCount(|part|) == 1;
    hide Joined, ByteAt, Zeros, WordCount;
    assert WordText(part, 0) == ByteAt(part, 3) + ByteAt(part, 2) + ByteAt(part, 1) + ByteAt(part, 0);
    hide WordText;
  }

  lemma FilledBytes(part: seq<string>)
    requires 0 < |part| <= 4
    ensures var arr := part + Zeros(4 - |part|);
      ByteAt(part, 0) == arr[0] && ByteAt(part, 1) == arr[1] && ByteAt(part, 2) == arr[2] && ByteAt(part, 3) == arr[3]
  {
  }

  /** Words of zeros across the gap, unless there is none. */
  method FillGap(address: nat, currAddr0: nat, buffer0: string,
                 ghost ws: seq<string>) returns (currAddr: nat, buffer: string)
    requires buffer0 == Listed(ws)
    ensures currAddr == if address > currAddr0 then address else currAddr0
    ensures buffer == Listed(ws + ZeroWords((address - currAddr0) / 4))
  {
    hide Listed;
    currAddr, buffer := currAddr0, buffer0;
    if address - currAddr > 0 {
      var i := 0;
      assert ws + ZeroWords(0) == ws;
      while i < (address - currAddr) / 4
        invariant 0 <= i <= (address - currAddr) / 4
        invariant buffer == Listed(ws + ZeroWords(i))
      {
        buffer := buffer + "00000000,\n";
        ListedSnoc(ws + ZeroWords(i), "00000000");
        assert ws + ZeroWords(i) + ["00000000"] == ws + ZeroWords(i + 1);
        assert Listed(ws + ZeroWords(i)) + "00000000" + ",\n" == Listed(ws + ZeroWords(i)) + "00000000,\n";
        i := i + 1;
      }
      currAddr := address;
    } else {
      assert ws + ZeroWords((address - currAddr0) / 4) == ws;
    }
  }

  /** One turn of the loop over the lines, for any line in any state. */
  method ConvertLine(line: Line, imemBase: nat, dmemBase: nat, currAddr0: nat, imem0: bool, dmem0: bool,
                     buffer0: string, file0: Option<string>, ghost s: State)
    returns (currAddr: nat, imem: bool, dmem: bool, buffer: string, file: Option<string>)
    requires Shows(s, currAddr0, imem0, dmem0, buffer0, file0)
    ensures Shows(Step(s, line, imemBase, dmemBase), currAddr, imem, dmem, buffer, file)
  {
    hide Listed, Words, CoeFile;
    NothingListed();
    currAddr, imem, dmem, buffer, file := currAddr0, imem0, dmem0, buffer0, file0;
    match line {
      case Address(address) =>
        if !imem && !dmem {
          currAddr := address;
          if address == imemBase {
            imem := true;
          }
        } else if address == dmemBase {
          file := Some(Finish(buffer, s.words));
          currAddr, buffer, imem, dmem := address, "", false, true;
        } else {
          currAddr, buffer := FillGap(address, currAddr, buffer, s.words);
          assert address <= currAddr0 ==> s.words + ZeroWords((address - currAddr0) / 4) == s.words;
        }
      case Data(bytes) =>
        currAddr, buffer := DataLine(bytes, currAddr, buffer, s.words);
    }
  }

  lemma NothingListed()
    ensures Listed([]) == ""
  {
  }

  /** `COE_HEADER + coe_buffer[:-2] + ';'` */
  function Finish(buffer: string, ghost ws: seq<string>): (file: string)
    requires buffer == Listed(ws)
    ensures file == CoeFile(ws)
  {
    ListedSeparated(ws);
    COE_HEADER + (if |buffer| >= 2 then buffer[..|buffer| - 2] else "") + ";"
  }

  /** The script, for any lines: what it writes to the instruction memory's file, if it
      writes one, and to the other file at the end. */
  method Convert(lines: seq<Line>, imemBase: nat, dmemBase: nat) returns (imemFile: Option<string>, dmemFile: string)
    ensures var s := Run(Start(imemBase), lines, imemBase, dmemBase);
      imemFile == FileText(s.file) && dmemFile == CoeFile(s.words)
  {
    hide Listed, CoeFile, Step;
    NothingListed();
    var currAddr, imem, dmem, buffer := imemBase, false, false, "";
    imemFile := None;
    ghost var s := Start(imemBase);
    var i := 0;
    while i < |lines|
      invariant 0 <= i <= |lines|
      invariant s == Run(Start(imemBase), lines[..i], imemBase, dmemBase)
      invariant Shows(s, currAddr, imem, dmem, buffer, imemFile)
    {
      currAddr, imem, dmem, buffer, imemFile := ConvertLine(lines[i], imemBase, dmemBase, currAddr, imem, dmem, buffer,
        imemFile, s);
      assert lines[..i + 1][..i] == lines[..i];
      s := Step(s, lines[i], imemBase, dmemBase);
      i := i + 1;
    }
    assert lines[..i] == lines;
    dmemFile := Finish(buffer, s.words);
  }

  lemma {:induction false} RunAppend(s: State, a: seq<Line>, b: seq<Line>, imemBase: nat, dmemBase: nat)
    ensures Run(s, a + b, imemBase, dmemBase) == Run(Run(s, a, imemBase, dmemBase), b, imemBase, dmemBase)
  {
    hide Step;
    if b == [] {
      assert a + b == a;
    } else {
      assert (a + b)[..|a + b| - 1] == a + b[..|b| - 1];
      RunAppend(s, a, b[..|b| - 1], imemBase, dmemBase);
    }
  }

  // -------------------------------------------------------------- the memory images

  /** What a loader puts where: every byte at its address. */
  function Loaded(ls: seq<Line>, base: nat): map<nat, string> {
    if ls == [] then map[]
    else
      var m := Loaded(ls[..|ls| - 1], base);
      match ls[|ls| - 1]
      case Address(_) => m
      case Data(bytes) => Stored(m, EndAddr(ls[..|ls| - 1], base), bytes)
  }

  /** The address behind the lines. */
  function EndAddr(ls: seq<Line>, base: nat): nat {
    if ls == [] then base
    else match ls[|ls| - 1]
      case Address(a) => a
      case Data(bytes) => EndAddr(ls[..|ls| - 1], base) + |bytes|
  }

  function Stored(m: map<nat, string>, at: nat, bytes: seq<string>): map<nat, string> {
    m + map a: nat | at <= a < at + |bytes| :: StoredByte(bytes, at, a)
  }

  function StoredByte(bytes: seq<string>, at: nat, a: nat): string
    requires at <= a < at + |bytes|
  {
    bytes[a - at]
  }

  /** The bytes of a memory from its base on, gaps between sections filled with zeros. */
  function Flat(ls: seq<Line>, base: nat): seq<string> {
    if ls == [] then [] else
      Extended(Flat(ls[..|ls| - 1], base), ls[|ls| - 1], base)
  }

  /** The image with one more line. */
  function Extended(f: seq<string>, line: Line, base: nat): seq<string> {
    match line
    case Address(a) => f + Zeros(a - base - |f|)
    case Data(bytes) => f + bytes
  }

  /** Section addresses are word-aligned and go up, and a line that leaves a word
      unfinished ends its section. */
  predicate WellFormed(ls: seq<Line>, base: nat) {
    ls != [] ==>
      var n := base + |Flat(ls[..|ls| - 1], base)|;
      && WellFormed(ls[..|ls| - 1], base)
      && match ls[|ls| - 1]
         case Address(a) => a % 4 == 0 && a >= n
         case Data(bytes) => n % 4 == 0
  }

  /** The image holds at i the byte loaded at base + i, and zero where nothing is loaded;
      nothing is loaded outside. */
  predicate IsImage(f: seq<string>, m: map<nat, string>, base: nat) {
    && (forall a :: a in m ==> base <= a < base + |f| && f[a - base] == m[a])
    && (forall i :: 0 <= i < |f| && base + i !in m ==> f[i] == "00")
  }

  /** For addresses that go up, the bytes in a row are the image of the memory. */
  lemma {:induction false} LoadedImage(ls: seq<Line>, base: nat)
    requires WellFormed(ls, base)
    ensures EndAddr(ls, base) == base + |Flat(ls, base)|
    ensures IsImage(Flat(ls, base), Loaded(ls, base), base)
  {
    hide *;
    if ls == [] {
      NoLines(base);
    } else {
      var front, last := ls[..|ls| - 1], ls[|ls| - 1];
      WellFormedLast(ls, base);
      LoadedImage(front, base);
      ImageExtended(Flat(front, base), Loaded(front, base), base, last);
    }
  }

  lemma NoLines(base: nat)
    ensures EndAddr([], base) == base && Flat([], base) == [] && IsImage([], Loaded([], base), base)
  {
  }

  lemma WellFormedLast(ls: seq<Line>, base: nat)
    requires ls != [] && WellFormed(ls, base)
    ensures var front, last := ls[..|ls| - 1], ls[|ls| - 1];
      var f, m, end := Flat(front, base), Loaded(front, base), EndAddr(front, base);
      && WellFormed(front, base) && Flat(ls, base) == Extended(f, last, base)
      && (last.Address? ==> last.address % 4 == 0 && last.address >= base + |f| && EndAddr(ls, base) == last.address)
      && (last.Data? ==> (base + |f|) % 4 == 0 && EndAddr(ls, base) == end + |last.bytes|)
      && Loaded(ls, base) == if last.Data? then Stored(m, end, last.bytes) else m
  {
    hide Extended, Stored;
  }

  lemma ImageExtended(f: seq<string>, m: map<nat, string>, base: nat, line: Line)
    requires IsImage(f, m, base)
    ensures IsImage(Extended(f, line, base), if line.Data? then Stored(m, base + |f|, line.bytes) else m, base)
    ensures line.Address? && line.address >= base + |f| ==> base + |Extended(f, line, base)| == line.address
    ensures line.Data? ==> |Extended(f, line, base)| == |f| + |line.bytes|
  {
  }

  /** No line of the list opens the data memory. */
  predicate Stays(ls: seq<Line>, dmemBase: nat) {
    forall i :: 0 <= i < |ls| ==> ls[i] != Address(dmemBase)
  }

  /** A well-formed section makes the words of its image. */
  lemma {:induction false} SectionImage(s: State, ls: seq<Line>, imemBase: nat, dmemBase: nat, base: nat)
    requires (s.imem || s.dmem) && s.currAddr == base && base % 4 == 0
    requires WellFormed(ls, base) && Stays(ls, dmemBase)
    ensures Run(s, ls, imemBase, dmemBase) == Filled(s, Flat(ls, base), base)
  {
    if ls == [] {
      assert s.words + [] == s.words;
    } else {
      var front, last := ls[..|ls| - 1], ls[|ls| - 1];
      assert last != Address(dmemBase) && Stays(front, dmemBase);
      hide Stays, WellFormed, Flat, Extended, Filled, Step, Words;
      WellFormedLast(ls, base);
      SectionImage(s, front, imemBase, dmemBase, base);
      SectionLine(s, Flat(front, base), last, imemBase, dmemBase, base);
    }
  }

  lemma SectionLine(s: State, f: seq<string>, line: Line, imemBase: nat, dmemBase: nat, base: nat)
    requires (s.imem || s.dmem) && line != Address(dmemBase) && base % 4 == 0
    requires line.Address? ==> line.address % 4 == 0 && line.address >= base + |f|
    requires line.Data? ==> (base + |f|) % 4 == 0
    ensures Step(Filled(s, f, base), line, imemBase, dmemBase) == Filled(s, Extended(f, line, base), base)
  {
    hide *;
    match line {
      case Address(a) => SectionGap(s, f, a, imemBase, dmemBase, base);
      case Data(bytes) => SectionData(s, f, bytes, imemBase, dmemBase, base);
    }
  }

  /** A state with the image f behind the base, after the words there were. */
  function Filled(s: State, f: seq<string>, base: nat): State {
    s.(currAddr := base + |f|, words := s.words + Words(f))
  }

  lemma SectionGap(s: State, f: seq<string>, a: nat, imemBase: nat, dmemBase: nat, base: nat)
    requires (s.imem || s.dmem) && a != dmemBase && base % 4 == 0 == a % 4 && a >= base + |f|
    ensures Step(Filled(s, f, base), Address(a), imemBase, dmemBase) == Filled(s, Extended(f, Address(a), base), base)
  {
    hide Words, Zeros, ZeroWords, Extended;
    GapWords(f, a, base);
    NoZeroWords(s.words + Words(f));
    Regroup(s.words, Words(f), ZeroWords((a - (base + |f|)) / 4));
  }

  lemma GapWords(f: seq<string>, a: nat, base: nat)
    requires base % 4 == 0 == a % 4 && a >= base + |f|
    ensures var g := Extended(f, Address(a), base);
      |g| == a - base && Words(g) == Words(f) + ZeroWords((a - (base + |f|)) / 4)
  {
    hide Words, ZeroWords;
    var gap := a - (base + |f|);
    GapAligned(|f|, gap, base, a);
    WordsAcrossGap(f, gap);
  }

  lemma GapAligned(n: nat, gap: nat, base: nat, a: nat)
    requires a == base + n + gap && base % 4 == 0 == a % 4
    ensures (n + gap) % 4 == 0
  {
  }

  lemma SectionData(s: State, f: seq<string>, bytes: seq<string>, imemBase: nat, dmemBase: nat, base: nat)
    requires base % 4 == 0 == (base + |f|) % 4
    ensures Step(Filled(s, f, base), Data(bytes), imemBase, dmemBase) == Filled(s, Extended(f, Data(bytes), base), base)
  {
    assert |f| % 4 == 0;
    hide Words;
    WordsAppend(f, bytes);
    Regroup(s.words, Words(f), Words(bytes));
  }

  lemma NoZeroWords(ws: seq<string>)
    ensures ws + ZeroWords(0) == ws
  {
  }

  lemma RunLine(s: State, line: Line, imemBase: nat, dmemBase: nat)
    ensures Run(s, [line], imemBase, dmemBase) == Step(s, line, imemBase, dmemBase)
  {
    assert [line][..0] == [];
  }

  /** The words of all lines, without gaps. */
  function LineWords(ls: seq<Line>): seq<string> {
    if ls == [] then []
    else LineWords(ls[..|ls| - 1]) + (match ls[|ls| - 1]
                                      case Address(_) => []
                                      case Data(bytes) => Words(bytes))
  }

  /** As long as no line has the instruction memory's address no other address counts: the
      words of the lines follow one another without gaps, into the other file. */
  lemma {:induction false} NothingOpened(ls: seq<Line>, imemBase: nat, dmemBase: nat)
    requires Stays(ls, imemBase)
    ensures var s := Run(Start(imemBase), ls, imemBase, dmemBase);
      !s.imem && !s.dmem && s.file == None && s.words == LineWords(ls)
  {
    hide Words;
    if ls != [] {
      assert ls[|ls| - 1] != Address(imemBase);
      NothingOpened(ls[..|ls| - 1], imemBase, dmemBase);
      var ws := LineWords(ls[..|ls| - 1]);
      assert ws + [] == ws;
    }
  }

  /** What stands before the instruction memory's address opens nothing, not even the data
      memory, but its words are kept: they come in front of the image. */
  lemma OpenedLate(pre: seq<Line>, ils: seq<Line>, imemBase: nat, dmemBase: nat)
    requires Stays(pre, imemBase)
    requires imemBase % 4 == 0 && WellFormed(ils, imemBase) && Stays(ils, dmemBase)
    ensures var s := Run(Start(imemBase), pre + [Address(imemBase)] + ils, imemBase, dmemBase);
      s.imem && s.file == None && s.words == LineWords(pre) + Words(Flat(ils, imemBase))
  {
    hide Words, Flat, WellFormed, Stays, Run, LineWords;
    NothingOpened(pre, imemBase, dmemBase);
    var s0 := Run(Start(imemBase), pre, imemBase, dmemBase);
    RunAppend(Start(imemBase), pre, [Address(imemBase)], imemBase, dmemBase);
    RunLine(s0, Address(imemBase), imemBase, dmemBase);
    RunAppend(Start(imemBase), pre + [Address(imemBase)], ils, imemBase, dmemBase);
    SectionImage(Step(s0, Address(imemBase), imemBase, dmemBase), ils, imemBase, dmemBase, imemBase);
  }

  /** And so they come in front of it in the instruction memory's file, data that the data
      memory's address introduced among them, while the other file has what follows the next
      such address. */
  lemma BothFiles(pre: seq<Line>, ils: seq<Line>, dls: seq<Line>, imemBase: nat, dmemBase: nat)
    requires Stays(pre, imemBase) && imemBase % 4 == 0 == dmemBase % 4
    requires WellFormed(ils, imemBase) && WellFormed(dls, dmemBase) && Stays(ils, dmemBase) && Stays(dls, dmemBase)
    ensures var s := Run(Start(imemBase), pre + [Address(imemBase)] + ils + [Address(dmemBase)] + dls, imemBase,
      dmemBase);
      s.file == Some(LineWords(pre) + Words(Flat(ils, imemBase))) && s.words == Words(Flat(dls, dmemBase))
  {
    hide Words, Flat, WellFormed, Stays, Run, LineWords;
    OpenedLate(pre, ils, imemBase, dmemBase);
    var first := pre + [Address(imemBase)] + ils;
    var s1 := Run(Start(imemBase), first, imemBase, dmemBase);
    RunAppend(Start(imemBase), first, [Address(dmemBase)], imemBase, dmemBase);
    RunLine(s1, Address(dmemBase), imemBase, dmemBase);
    var s2 := Step(s1, Address(dmemBase), imemBase, dmemBase);
    RunAppend(Start(imemBase), first + [Address(dmemBase)], dls, imemBase, dmemBase);
    SectionImage(s2, dls, imemBase, dmemBase, dmemBase);
    Nothing(Words(Flat(dls, dmemBase)));
  }

  lemma Nothing(ws: seq<string>)
    ensures [] + ws == ws && LineWords([]) == []
  {
  }

  /** Two sections at their memories' addresses: both files hold exactly the images. */
  lemma BothImages(ils: seq<Line>, dls: seq<Line>, imemBase: nat, dmemBase: nat)
    requires imemBase % 4 == 0 == dmemBase % 4
    requires WellFormed(ils, imemBase) && WellFormed(dls, dmemBase) && Stays(ils, dmemBase) && Stays(dls, dmemBase)
    ensures var s := Run(Start(imemBase), [Address(imemBase)] + ils + [Address(dmemBase)] + dls, imemBase, dmemBase);
      s.file == Some(Words(Flat(ils, imemBase))) && s.words == Words(Flat(dls, dmemBase))
  {
    hide Words, Flat, WellFormed, Run, LineWords;
    BothFiles([], ils, dls, imemBase, dmemBase);
    Nothing(Words(Flat(ils, imemBase)));
    assert [] + [Address(imemBase)] == [Address(imemBase)];
  }

  /** Without a data memory address no instruction memory file is written: its image goes to
      the file that is meant for the data memory. */
  lemma OneImage(ils: seq<Line>, imemBase: nat, dmemBase: nat)
    requires imemBase % 4 == 0 && WellFormed(ils, imemBase) && Stays(ils, dmemBase)
    ensures var s := Run(Start(imemBase), [Address(imemBase)] + ils, imemBase, dmemBase);
      s.imem && s.file == None && s.words == Words(Flat(ils, imemBase))
  {
    hide Words, Flat, WellFormed, Run, LineWords;
    OpenedLate([], ils, imemBase, dmemBase);
    Nothing(Words(Flat(ils, imemBase)));
    assert [] + [Address(imemBase)] == [Address(imemBase)];
  }

  /** Each data memory address writes the instruction memory's file again: a second one
      replaces it by the data in between. */
  lemma Overwritten(ls: seq<Line>, dls: seq<Line>, imemBase: nat, dmemBase: nat)
    requires dmemBase % 4 == 0 && WellFormed(dls, dmemBase) && Stays(dls, dmemBase)
    requires var s := Run(Start(imemBase), ls, imemBase, dmemBase); s.imem || s.dmem
    ensures var s := Run(Start(imemBase), ls + [Address(dmemBase)] + dls + [Address(dmemBase)], imemBase, dmemBase);
      s.file == Some(Words(Flat(dls, dmemBase)))
  {
    hide Words, Flat, WellFormed, Stays, Run;
    var s0 := Run(Start(imemBase), ls, imemBase, dmemBase);
    var again := Address(dmemBase);
    RunAppend(Start(imemBase), ls, [again], imemBase, dmemBase);
    RunLine(s0, again, imemBase, dmemBase);
    var s1 := Step(s0, again, imemBase, dmemBase);
    RunAppend(Start(imemBase), ls + [again], dls, imemBase, dmemBase);
    SectionImage(s1, dls, imemBase, dmemBase, dmemBase);
    Nothing(Words(Flat(dls, dmemBase)));
    var s2 := Run(s1, dls, imemBase, dmemBase);
    RunAppend(Start(imemBase), ls + [again] + dls, [again], imemBase, dmemBase);
    RunLine(s2, again, imemBase, dmemBase);
  }

  /** Word k of a well-formed section's image is made of the bytes loaded at the four
      addresses from base + 4k on. */
  lemma WordIsLoaded(ls: seq<Line>, base: nat, k: nat)
    requires WellFormed(ls, base) && k < |Words(Flat(ls, base))|
    ensures var m, a := Loaded(ls, base), base + 4 * k;
      Words(Flat(ls, base))[k] == LoadedByte(m, a + 3) + LoadedByte(m, a + 2) + LoadedByte(m, a + 1) + LoadedByte(m, a)
  {
    LoadedImage(ls, base);
    hide Flat, Loaded, WellFormed;
    forall i: nat
      ensures ByteAt(Flat(ls, base), i) == LoadedByte(Loaded(ls, base), base + i)
    {
    }
  }

  /** The byte at an address, zero if none is loaded there. */
  function LoadedByte(m: map<nat, string>, a: nat): string {
    if a in m then m[a] else "00"
  }
}
