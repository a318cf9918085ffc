/** Printing and parsing numbers in `syscalls.c`: `printnum`, the `%d` conversion of
    `vprintfmt`, `sprintf` and `atol`.

    The caller's `char` buffer is an array that `putch` writes through a cursor. */
module Syscalls {
  import opened MachineInts
  import opened NumberFormat

  type u64 = x: int | 0 <= x < 0x1_0000_0000_0000_0000
  type s64 = x: int | -0x8000_0000_0000_0000 <= x < 0x8000_0000_0000_0000

  /** The digit loop, which divides before it tests, collects the same digits. */
  lemma PrintedDigitsStep(num: nat, base: nat)
    requires base >= 2
    ensures num < base ==> PrintedDigits(num, base) == [Rem(num, base)]
    ensures num >= base ==>
      Quot(num, base) > 0 && PrintedDigits(num, base) == [Rem(num, base)] + PrintedDigits(Quot(num, base), base)
  {
    DivMod(num, base);
    QuotientOf(num, base, Quot(num, base), Rem(num, base));
    hide Quot, Rem;
    assert Digits(0, base) == [];
  }

  lemma QuotientOf(num: nat, base: nat, q: nat, r: nat)
    requires base >= 2 && num == base * q + r && r < base
    ensures num < base ==> q == 0 && r == num
    ensures num >= base ==> q > 0
  {
    if q > 0 {
      assert base * q >= base;
    }
  }

  /** Padding in front, then the digits, most significant first. */
  function NumText(num: u64, base: nat, width: int, padc: char): string
    requires 2 <= base <= 36
  {
    var ds := PrintedDigits(num, base);
    Repeat(padc, width - |ds|) + DigitText(ds, false)
  }

  /** Whatever the base, the text is padding up to the width and then the number in lower case,
      without leading zeros. */
  lemma NumTextMeans(num: u64, base: nat, width: int, padc: char) returns (n: nat, t: string)
    requires 2 <= base <= 36
    ensures NumText(num, base, width, padc) == Repeat(padc, n) + t
    ensures Numeral(t, base, false) && Worth(t, base) == num && (|t| > 1 ==> t[0] != '0')
    ensures n == if width > |t| then width - |t| else 0
  {
    var ds := PrintedDigits(num, base);
    t := DigitText(ds, false);
    n := if width > |t| then width - |t| else 0;
    PrintedWorth(num, base);
    hide *;
    NumTextParts(num, base, width, padc);
    TextReads(ds, base, false);
    NumeralIs(t, base, false);
    RepeatNone(padc, width - |ds|);
    RepeatNone(padc, n);
    LeadingDigit(t, ds[|ds| - 1]);
  }

  lemma LeadingDigit(t: string, last: nat)
    requires t != "" && (t[0] == '0' <==> last == 0) && (|t| > 1 ==> last != 0)
    ensures |t| > 1 ==> t[0] != '0'
  {
  }

  /** Appends a character. */
  method PutCh(buf: array<char>, pos: nat, c: char) returns (pos1: nat)
    requires pos < buf.Length
    modifies buf
    ensures pos1 == pos + 1 && buf[..pos1] == old(buf[..pos]) + [c]
  {
    buf[pos] := c;
    pos1 := pos + 1;
  }

  method CollectDigits(num0: u64, base: nat) returns (digs: array<nat>, pos: nat)
    requires 2 <= base <= 36
    ensures fresh(digs) && pos <= digs.Length == 64 && digs[..pos] == PrintedDigits(num0, base)
  {
    DigitsFit(num0, base);
    hide *;
    digs := new nat[64];
    pos := 0;
    var num := num0;
    ghost var done: seq<nat>, rest := [], PrintedDigits(num0, base);
    while true
      invariant 0 <= num && rest == PrintedDigits(num, base) && |done| + |rest| <= 64
      invariant pos == |done| && digs[..pos] == done && done + rest == PrintedDigits(num0, base)
      decreases num
    {
      var d := Rem(num, base);
      PrintedDigitsStep(num, base);
      QuotSmaller(num, base);
      StoreDigit(digs, pos, d);
      pos := pos + 1;
      if num < base {
        break;
      }
      num := Quot(num, base);
      Regroup(done, d, PrintedDigits(num, base));
      done, rest := done + [d], PrintedDigits(num, base);
    }
  }

  method StoreDigit(digs: array<nat>, pos: nat, d: nat)
    requires pos < digs.Length
    modifies digs
    ensures digs[..pos + 1] == old(digs[..pos]) + [d]
  {
    digs[pos] := d;
  }

  lemma Regroup(done: seq<nat>, d: nat, rest: seq<nat>)
    ensures done + ([d] + rest) == (done + [d]) + rest
  {
  }

  /** 64 places are enough for a 64-bit number in any base. */
  lemma DigitsFit(num: u64, base: nat)
    requires base >= 2
    ensures |PrintedDigits(num, base)| <= 64
  {
    Pow64();
    DigitCount(num, base, 64);
  }

  lemma Pow64()
    ensures Pow2(64) == 0x1_0000_0000_0000_0000
  {
    Pow32();
    assert Pow2(40) == 0x100_0000_0000;
    assert Pow2(48) == 0x1_0000_0000_0000;
    assert Pow2(56) == 0x100_0000_0000_0000;
  }

  /** `digs[pos] + (digs[pos] >= 10 ? 'a' - 10 : '0')` */
  function DigitCode(d: nat): char
    requires d < 36
  {
    (d + (if d >= 10 then 'a' as int - 10 else '0' as int)) as char
  }

  lemma DigitCodeIsChar(d: nat)
    requires d < 36
    ensures DigitCode(d) == DigitChar(d, false)
  {
  }

  /** Writes padding and digits; the buffer must have room for them. */
  method PrintNum(buf: array<char>, pos0: nat, num: u64, base: nat, width0: int, padc: char) returns (pos1: nat)
    requires 2 <= base <= 36 && pos0 + |NumText(num, base, width0, padc)| <= buf.Length
    modifies buf
    ensures pos1 == pos0 + |NumText(num, base, width0, padc)|
      && buf[..pos1] == old(buf[..pos0]) + NumText(num, base, width0, padc)
  {
    hide *;
    ghost var ds := PrintedDigits(num, base);
    NumTextParts(num, base, width0, padc);
    var digs, count := CollectDigits(num, base);
    pos1 := Padding(buf, pos0, width0, count, padc);
    pos1 := WriteDigits(buf, pos1, digs, count, ds);
  }

  lemma NumTextParts(num: u64, base: nat, width: int, padc: char)
    requires 2 <= base <= 36
    ensures var ds := PrintedDigits(num, base);
      && NumText(num, base, width, padc) == Repeat(padc, width - |ds|) + DigitText(ds, false)
      && |DigitText(ds, false)| == |ds| && forall i :: 0 <= i < |ds| ==> ds[i] < 36
  {
  }

  /** `while (width-- > pos) putch(padc)` */
  method Padding(buf: array<char>, pos0: nat, width0: int, count: nat, padc: char) returns (pos1: nat)
    requires pos0 + |Repeat(padc, width0 - count)| <= buf.Length
    modifies buf
    ensures pos1 == pos0 + |Repeat(padc, width0 - count)|
      && buf[..pos1] == old(buf[..pos0]) + Repeat(padc, width0 - count)
  {
    pos1 := pos0;
    var width := width0;
    while width > count
      invariant width0 > count ==> count <= width <= width0
      invariant width0 <= count ==> width == width0
      invariant pos1 == pos0 + |Repeat(padc, width0 - width)| && pos1 <= buf.Length
      invariant buf[..pos1] == old(buf[..pos0]) + Repeat(padc, width0 - width)
    {
      pos1 := PutCh(buf, pos1, padc);
      width := width - 1;
    }
  }

  method WriteDigits(buf: array<char>, pos0: nat, digs: array<nat>, count: nat, ghost ds: seq<nat>) returns (pos1: nat)
    requires count <= digs.Length && ds == digs[..count] && pos0 + count <= buf.Length
    requires forall i :: 0 <= i < count ==> ds[i] < 36
    modifies buf
    ensures pos1 == pos0 + count && buf[..pos1] == old(buf[..pos0]) + DigitText(ds, false)
  {
    hide DigitChar, DigitCode;
    pos1 := pos0;
    var pos := count;
    while pos > 0
      invariant 0 <= pos <= count && pos1 == pos0 + count - pos
      invariant buf[..pos1] == old(buf[..pos0]) + DigitText(ds[pos..], false)
    {
      pos := pos - 1;
      assert digs[pos] == ds[pos];
      DigitCodeIsChar(ds[pos]);
      assert ds[pos..][1..] == ds[pos + 1..];
      pos1 := PutCh(buf, pos1, DigitCode(digs[pos]));
    }
  }

  /** The argument of a signed conversion, widened to 64 bits: `int` and `long` have 32,
      `long long` has 64. */
  function GetInt(arg: s64, lflag: nat): s64 {
    if lflag >= 2 then arg else ToS32(arg)
  }

  /** A 32-bit argument comes through unchanged, and only two `l` let more through. */
  lemma GetIntMeans(arg: s64, lflag: nat)
    ensures -0x8000_0000 <= arg < 0x8000_0000 || lflag >= 2 ==> GetInt(arg, lflag) == arg
    ensures lflag < 2 ==> -0x8000_0000 <= GetInt(arg, lflag) < 0x8000_0000
    ensures (arg as int - GetInt(arg, lflag)) % 0x1_0000_0000 == 0
  {
  }

  function Abs(v: s64): u64 {
    if v < 0 then -(v as int) else v
  }

  function SignOf(v: s64): string {
    if v < 0 then "-" else ""
  }

  /** The digits of the magnitude. */
  function DigitsOf(v: s64): (t: string)
    ensures t != ""
  {
    DigitText(PrintedDigits(Abs(v), 10), false)
  }

  /** What `%d` produces: a minus sign, then padding, then the digits of the magnitude. */
  function DecimalText(v: s64, width: int, padc: char): string {
    SignOf(v) + NumText(Abs(v), 10, width, padc)
  }

  /** The `%d` conversion with any number of `l` flags: the argument is widened to 64 bits
      before it is negated, so the most negative one keeps its magnitude. */
  method PrintDecimal(buf: array<char>, pos0: nat, arg: s64, lflag: nat, width: int, padc: char) returns (pos1: nat)
    requires pos0 + |DecimalText(GetInt(arg, lflag), width, padc)| <= buf.Length
    modifies buf
    ensures var text := DecimalText(GetInt(arg, lflag), width, padc);
      pos1 == pos0 + |text| && buf[..pos1] == old(buf[..pos0]) + text
  {
    hide NumText, GetInt;
    pos1 := pos0;
    var num: int := GetInt(arg, lflag);
    if num < 0 {
      pos1 := PutCh(buf, pos1, '-');
      num := -num;
    }
    pos1 := PrintNum(buf, pos1, num, 10, width, padc);
  }

  /** `sprintf` of one signed conversion: the text, its NUL, and its length. */
  method SprintfDecimal(buf: array<char>, arg: s64, lflag: nat, width: int, padc: char) returns (n: nat)
    requires |DecimalText(GetInt(arg, lflag), width, padc)| < buf.Length
    modifies buf
    ensures var text := DecimalText(GetInt(arg, lflag), width, padc);
      n == |text| && buf[..n + 1] == text + ['\0']
  {
    hide DecimalText, GetInt;
    n := PrintDecimal(buf, 0, arg, lflag, width, padc);
    buf[n] := '\0';
  }

  // -------------------------------------------------------------------------- atol

  /** What `atol` makes of a string: blanks, a sign, and then every character to the end as
      a digit, in 32-bit arithmetic. */
  function AtolOf(s: string): s32 {
    var i := BlanksEnd(s, 0);
    var signed := i < |s| && (s[i] == '-' || s[i] == '+');
    var res := ToS32(Spelled(s[if signed then i + 1 else i..], 0));
    if i < |s| && s[i] == '-' then ToS32(-(res as int)) else res
  }

  /** The string in the buffer is s. */
  ghost predicate Holds(buf: array<char>, s: string)
    reads buf
  {
    |s| < buf.Length && buf[..|s|] == s && buf[|s|] == '\0' && '\0' !in s
  }

  method Atol(buf: array<char>, ghost s: string) returns (r: s32)
    requires Holds(buf, s)
    ensures r == AtolOf(s)
  {
    hide ToS32, Spelled;
    var str := 0;
    ghost var i := BlanksEnd(s, 0);
    CharsOf(buf, s);
    while buf[str] == ' '
      invariant str <= |s| && BlanksEnd(s, str) == i
      decreases |s| - str
    {
      str := str + 1;
    }
    var sign := false;
    if buf[str] == '-' || buf[str] == '+' {
      sign := buf[str] == '-';
      str := str + 1;
    }
    var res := Accumulate(buf, s, str);
    r := if sign then ToS32(-(res as int)) else res;
  }

  lemma CharsOf(buf: array<char>, s: string)
    requires Holds(buf, s)
    ensures |s| < buf.Length && buf[|s|] == '\0'
    ensures forall k :: 0 <= k < |s| ==> buf[k] == s[k] && s[k] != '\0'
  {
    assert forall k :: 0 <= k < |s| ==> s[k] in s;
  }

  /** The digit loop from position j. */
  method Accumulate(buf: array<char>, ghost s: string, j: nat) returns (res: s32)
    requires Holds(buf, s) && j <= |s|
    ensures res == ToS32(Spelled(s[j..], 0))
  {
    hide ToS32, Spelled;
    CharsOf(buf, s);
    WrapSmall(0);
    SpelledNothing();
    var str: nat := j;
    assert s[j..str] == "";
    res := 0;
    while buf[str] != '\0'
      invariant j <= str <= |s| && res == ToS32(Spelled(s[j..str], 0))
      decreases |s| - str
    {
      var t: s32 := ToS32(res as int * 10);
      SpelledSnoc(s[j..str], s[str], 0);
      assert s[j..str + 1] == s[j..str] + [s[str]];
      WrapTimes10(Spelled(s[j..str], 0), 0);
      WrapAdd(Spelled(s[j..str], 0) * 10, s[str] as int - '0' as int);
      res := ToS32(t as int + (buf[str] as int - '0' as int));
      str := str + 1;
    }
    assert s[j..str] == s[j..];
  }

  lemma SpelledNothing()
    ensures Spelled("", 0) == 0
  {
  }

  // ------------------------------------------------------------ padding on the right

  /** The text that padding on the right would give: sign and digits, then blanks. */
  function RightPadded(v: s64, width: int): string {
    var s := SignOf(v) + DigitsOf(v);
    s + Repeat(' ', width - |s|)
  }

  /** The '-' flag is documented as padding on the right, but puts minus signs between the
      sign and the digits: the text is the documented one exactly when there is nothing
      to pad. */
  lemma DashPadding(v: s64, width: int)
    ensures DecimalText(v, width, '-') == SignOf(v) + Repeat('-', width - |DigitsOf(v)|) + DigitsOf(v)
    ensures DecimalText(v, width, '-') == RightPadded(v, width) <==> width <= |DigitsOf(v)|
  {
    var sign, digits, n := SignOf(v), DigitsOf(v), width - |DigitsOf(v)|;
    DecimalTextIs(v, width, '-');
    DigitsSpell(v);
    hide DecimalText, DigitsOf;
    var pads, blanks := Repeat('-', n), Repeat(' ', width - |sign + digits|);
    assert sign + (pads + digits) == sign + pads + digits;
    if n <= 0 {
      assert sign + "" + digits + "" == sign + digits;
    } else {
      assert (sign + pads + digits)[|sign|] == '-';
      assert (sign + digits + blanks)[|sign|] == digits[0];
    }
  }

  lemma DecimalTextIs(v: s64, width: int, padc: char)
    ensures DecimalText(v, width, padc) == SignOf(v) + (Repeat(padc, width - |DigitsOf(v)|) + DigitsOf(v))
  {
  }

  lemma DigitsSpell(v: s64)
    ensures Decimal(DigitsOf(v)) && Spelled(DigitsOf(v), 0) == Abs(v)
  {
    DigitsValue(Abs(v), 10);
    DigitTextSpells(PrintedDigits(Abs(v), 10), false);
  }

  lemma Seven()
    ensures DigitsOf(7) == "7" && Spelled("7", 0) == 7
  {
    assert Digits(7, 10) == [7] + Digits(0, 10);
    assert DigitsOf(7) == DigitText([7], false) == "7";
    assert Spelled("7", 0) == Spelled("", 7);
  }

  /** For example, 7 in two places is printed as -7. */
  lemma DashPads()
    ensures DecimalText(7, 2, '-') == "-7" && RightPadded(7, 2) == "7 " && AtolOf("-7") == -7
  {
    Seven();
    hide DigitsOf, DecimalText, Spelled, AtolOf, ToS32;
    DashPadding(7, 2);
    assert "" + ("-" + "7") == "-7" && "" + "7" + " " == "7 ";
    assert Repeat('-', 1) == "-" && Repeat(' ', 1) == " ";
    ReadSigned("7");
    WrapSmall(-7);
    assert "-" + "7" == "-7";
  }

  // -------------------------------------------------------------------- round trip

  function Pow10(k: nat): nat {
    if k == 0 then 1 else 10 * Pow10(k - 1)
  }

  function Pow5(k: nat): nat {
    if k == 0 then 1 else 5 * Pow5(k - 1)
  }

  /** n ones in decimal */
  function Repunit(n: int): nat {
    if n <= 0 then 0 else 10 * Repunit(n - 1) + 1
  }

  /** n ones above a number of digits */
  function Ones(n: int, digits: nat): nat {
    Repunit(n) * Pow10(digits)
  }

  lemma {:induction false} SpelledFrom(t: string, acc: int)
    ensures Spelled(t, acc) == acc * Pow10(|t|) + Spelled(t, 0)
  {
    if t != "" {
      var d := t[0] as int - '0' as int;
      SpelledFrom(t[1..], acc * 10 + d);
      SpelledFrom(t[1..], d);
      Shifted(acc, d, Pow10(|t| - 1));
    }
  }

  lemma Shifted(acc: int, d: int, p: int)
    ensures (acc * 10 + d) * p == acc * (10 * p) + d * p
  {
  }

  /** A run of one character in front of a number spells a repunit of its distance from
      '0', above the number's digits. */
  lemma {:induction false} SpelledPadding(c: char, n: int, t: string)
    ensures Spelled(Repeat(c, n) + t, 0) == (c as int - '0' as int) * Ones(n, |t|) + Spelled(t, 0)
  {
    SpelledRepeat(c, n);
    SpelledBoth(Repeat(c, n), t);
    Regrouped(c as int - '0' as int, Repunit(n), Pow10(|t|));
  }

  lemma Regrouped(c: int, r: int, p: int)
    ensures c * r * p == c * (r * p)
  {
  }

  lemma {:induction false} SpelledRepeat(c: char, n: int)
    ensures Spelled(Repeat(c, n), 0) == (c as int - '0' as int) * Repunit(n)
  {
    if n > 0 {
      SpelledRepeat(c, n - 1);
      SpelledSnoc(Repeat(c, n - 1), c, 0);
      Shifted(Repunit(n - 1), 1, c as int - '0' as int);
    }
  }

  lemma {:induction false} SpelledBoth(s: string, t: string)
    ensures Spelled(s + t, 0) == Spelled(s, 0) * Pow10(|t|) + Spelled(t, 0)
  {
    SpelledOn(s, t, 0);
    SpelledFrom(t, Spelled(s, 0));
  }

  lemma {:induction false} SpelledOn(s: string, t: string, acc: int)
    ensures Spelled(s + t, acc) == Spelled(t, Spelled(s, acc))
  {
    if s == "" {
      assert s + t == t;
    } else {
      assert (s + t)[1..] == s[1..] + t;
      SpelledOn(s[1..], t, acc * 10 + (s[0] as int - '0' as int));
    }
  }

  /** The padding characters of the formatter. */
  predicate PadChar(padc: char) {
    padc == ' ' || padc == '0' || padc == '-'
  }

  /** What n padding characters taken for digits, all of them below '0', take away. */
  function Surplus(padc: char, n: int, digits: nat): int {
    ('0' as int - padc as int) * Ones(n, digits)
  }

  /** What `atol` takes a number for that is printed in a number of digits behind n padding
      characters.  Behind a minus sign every one of them is a digit; without, the first dash
      is the sign. */
  function ReadAs(v: s64, n: int, digits: nat, padc: char): int {
    if v < 0 then v + Surplus(padc, n, digits)
    else if padc == '-' && n > 0 then Surplus(padc, n - 1, digits) - v
    else v
  }

  /** A text behind n padding characters. */
  function Padded(padc: char, n: int, t: string): string {
    Repeat(padc, n) + t
  }

  /** What a printed number is read as, for every width and padding. */
  lemma AtolOfPadded(v: s64, width: int, padc: char)
    requires PadChar(padc)
    ensures var digits := |DigitsOf(v)|;
      AtolOf(DecimalText(v, width, padc)) == ToS32(ReadAs(v, width - digits, digits, padc))
  {
    hide *;
    if v < 0 {
      AtolNegative(v, width, padc);
    } else {
      AtolNatural(v, width, padc);
    }
  }

  lemma AtolNegative(v: s64, width: int, padc: char)
    requires v < 0
    ensures var digits := |DigitsOf(v)|;
      AtolOf(DecimalText(v, width, padc)) == ToS32(ReadAs(v, width - digits, digits, padc))
  {
    hide *;
    var t, n := DigitsOf(v), width - |DigitsOf(v)|;
    NegativeText(v, width, padc);
    ReadAsCases(v, n, |t|, padc);
    ReadPadded(padc, n, t);
  }

  lemma AtolNatural(v: s64, width: int, padc: char)
    requires v >= 0 && PadChar(padc)
    ensures var digits := |DigitsOf(v)|;
      AtolOf(DecimalText(v, width, padc)) == ToS32(ReadAs(v, width - digits, digits, padc))
  {
    hide *;
    var t, n := DigitsOf(v), width - |DigitsOf(v)|;
    NaturalText(v, width, padc);
    ReadAsCases(v, n, |t|, padc);
    if padc == '-' && n > 0 {
      ReadDashes(n, t);
    } else {
      ReadUnsigned(padc, n, t);
    }
  }

  lemma NegativeText(v: s64, width: int, padc: char)
    requires v < 0
    ensures var t := DigitsOf(v);
      && DecimalText(v, width, padc) == "-" + Padded(padc, width - |t|, t)
      && Spelled(t, 0) == -(v as int)
  {
    DecimalTextIs(v, width, padc);
    DigitsSpell(v);
  }

  lemma NaturalText(v: s64, width: int, padc: char)
    requires v >= 0
    ensures var t := DigitsOf(v);
      && DecimalText(v, width, padc) == Padded(padc, width - |t|, t)
      && Decimal(t) && Spelled(t, 0) == v
  {
    DecimalTextIs(v, width, padc);
    DigitsSpell(v);
    hide DecimalText, DigitsOf;
    var s := Repeat(padc, width - |DigitsOf(v)|) + DigitsOf(v);
    assert "" + s == s;
  }

  lemma ReadAsCases(v: s64, n: int, digits: nat, padc: char)
    ensures v < 0 ==> ReadAs(v, n, digits, padc) == v + Surplus(padc, n, digits)
    ensures v >= 0 && padc == '-' && n > 0 ==> ReadAs(v, n, digits, padc) == -v + Surplus('-', n - 1, digits)
    ensures v >= 0 && (padc != '-' || n <= 0) ==> ReadAs(v, n, digits, padc) == v
  {
    hide Surplus;
  }

  lemma Minus(c: int, x: int)
    ensures c * x == -(-c * x)
  {
  }

  /** Behind a minus sign the padding counts. */
  lemma ReadPadded(padc: char, n: int, t: string)
    ensures AtolOf("-" + Padded(padc, n, t)) == ToS32(-Spelled(t, 0) + Surplus(padc, n, |t|))
  {
    hide Ones, Repeat, Spelled, AtolOf, ToS32;
    ReadSigned(Repeat(padc, n) + t);
    SpelledPadding(padc, n, t);
    Minus(padc as int - '0' as int, Ones(n, |t|));
  }

  /** The first dash is the sign, and the others count. */
  lemma ReadDashes(n: int, t: string)
    requires n > 0
    ensures AtolOf(Padded('-', n, t)) == ToS32(-Spelled(t, 0) + Surplus('-', n - 1, |t|))
  {
    hide *;
    DashInFront(n, t);
    ReadPadded('-', n - 1, t);
  }

  lemma ReadUnsigned(padc: char, n: int, t: string)
    requires Decimal(t) && PadChar(padc) && (padc == '-' ==> n <= 0)
    ensures AtolOf(Padded(padc, n, t)) == ToS32(Spelled(t, 0))
  {
    hide AtolOf, Spelled, ToS32, Decimal, Repeat;
    if padc == ' ' {
      ReadBlanks(Repeat(' ', n), t);
    } else {
      ReadPlain(n, padc, t);
    }
  }

  lemma {:induction false} DashInFront(n: int, t: string)
    requires n > 0
    ensures Padded('-', n, t) == "-" + Padded('-', n - 1, t)
  {
  }

  /** Behind a minus sign every character counts. */
  lemma ReadSigned(t: string)
    ensures AtolOf("-" + t) == ToS32(-Spelled(t, 0))
  {
    var s := "-" + t;
    assert BlanksEnd(s, 0) == 0;
    assert s[1..] == t;
    hide ToS32, BlanksEnd, Spelled;
    WrapNegated(Spelled(t, 0));
  }

  lemma WrapNegated(x: int)
    ensures ToS32(-(ToS32(x) as int)) == ToS32(-x)
  {
    var k := (x + 0x8000_0000) / 0x1_0000_0000;
    assert ToS32(x) == x - k * 0x1_0000_0000;
    Wrap32(-x, -k);
  }

  /** Blanks in front of a digit are skipped. */
  lemma ReadBlanks(pads: string, t: string)
    requires Blank(pads) && Decimal(t)
    ensures AtolOf(pads + t) == ToS32(Spelled(t, 0))
  {
    var s := pads + t;
    assert s[|pads|] == t[0];
    BlanksAt(s, 0, |pads|);
    assert s[|pads|..] == t;
    hide ToS32, BlanksEnd, Spelled;
  }

  /** Zeros in front of a digit are digits. */
  lemma ReadPlain(n: int, padc: char, t: string)
    requires Decimal(t) && (padc == '0' || n <= 0)
    ensures AtolOf(Repeat(padc, n) + t) == ToS32(Spelled(t, 0))
  {
    ZerosSpell(n, t);
    hide Spelled, ToS32;
    var s := Repeat(padc, n) + t;
    assert s == Repeat('0', n) + t;
    assert "" + s == s;
    ReadBlanks("", s);
  }

  predicate WholeWords(x: int) {
    x % 0x1_0000_0000 == 0
  }

  /** When a printed number is read back: nothing is padded, or it is padded with zeros, or
      with blanks and has no sign; or the dashes happen to make up for the flipped sign. */
  predicate ReadsBack(v: s64, width: int, padc: char) {
    var digits := |DigitsOf(v)|;
    || width <= digits
    || padc == '0'
    || (padc == ' ' && v >= 0)
    || (padc == '-' && v >= 0 && WholeWords(Surplus(padc, width - digits - 1, digits) - 2 * v))
  }

  /** Printing and parsing gives the number back, its low 32 bits if it has more and the
      most negative one by a double wrap-around, exactly when `ReadsBack` holds. */
  lemma AtolOfDecimal(v: s64, width: int, padc: char)
    requires PadChar(padc)
    ensures AtolOf(DecimalText(v, width, padc)) == ToS32(v) <==> ReadsBack(v, width, padc)
  {
    hide *;
    var digits, n := |DigitsOf(v)|, width - |DigitsOf(v)|;
    AtolOfPadded(v, width, padc);
    WrapEqual(v, ReadAs(v, n, digits, padc) - v);
    ReadsBackWhole(v, width, padc);
  }

  lemma ReadsBackWhole(v: s64, width: int, padc: char)
    requires PadChar(padc)
    ensures var digits := |DigitsOf(v)|;
      ReadsBack(v, width, padc) <==> WholeWords(ReadAs(v, width - digits, digits, padc) - v)
  {
    hide DigitsOf, Surplus, WholeWords;
    DigitsFew(v);
    SurplusWhole(padc, width - |DigitsOf(v)|, |DigitsOf(v)|);
  }

  /** Padding characters that are not zeros never take away whole words. */
  lemma SurplusWhole(padc: char, n: int, digits: nat)
    requires PadChar(padc) && digits <= 20
    ensures WholeWords(Surplus(padc, n, digits)) <==> padc == '0' || n <= 0
    ensures WholeWords(0)
  {
    hide Ones;
    if n > 0 {
      WordApart(n, digits);
    } else {
      NoOnes(n, digits);
    }
  }

  lemma NoOnes(n: int, digits: nat)
    requires n <= 0
    ensures Ones(n, digits) == 0
  {
  }

  /** Two numbers wrap to the same word if and only if they differ by whole words. */
  lemma WrapEqual(x: int, d: int)
    ensures ToS32(x + d) == ToS32(x) <==> WholeWords(d)
  {
    if d % 0x1_0000_0000 == 0 {
      Wrap32(x, -(d / 0x1_0000_0000));
    }
  }

  /** Padding with minus signs or blanks never adds whole words: the power of two in it is
      too small. */
  lemma WordApart(n: int, digits: nat)
    requires n > 0 && digits <= 20
    ensures !WholeWords(16 * Ones(n, digits)) && !WholeWords(3 * Ones(n, digits))
  {
    var odd := OnesOdd(n, digits);
    hide *;
    Sixteen(digits, odd);
    NotWhole(16 * Ones(n, digits), digits + 4, odd);
    Three(Pow2(digits), odd);
    NotWhole(3 * Ones(n, digits), digits, 3 * odd);
  }

  predicate IsOdd(x: int) {
    x % 2 == 1
  }

  lemma OnesOdd(n: int, digits: nat) returns (odd: nat)
    requires n > 0
    ensures Ones(n, digits) == Pow2(digits) * odd && IsOdd(odd)
  {
    odd := Repunit(n) * Pow5(digits);
    PowersOfTen(digits);
    OddPow5(digits);
    OddRepunit(n);
    OddProduct(Repunit(n), Pow5(digits));
    Rearranged(Repunit(n), Pow2(digits), Pow5(digits));
    hide Repunit, Pow5, Pow10, Pow2, IsOdd;
  }

  lemma OddRepunit(n: int)
    requires n > 0
    ensures IsOdd(Repunit(n))
  {
  }

  lemma Rearranged(r: int, two: int, five: int)
    ensures r * (two * five) == two * (r * five)
  {
  }

  lemma Sixteen(digits: nat, odd: nat)
    ensures 16 * (Pow2(digits) * odd) == Pow2(digits + 4) * odd
  {
    assert Pow2(digits + 4) == 2 * Pow2(digits + 3) == 4 * Pow2(digits + 2) == 8 * Pow2(digits + 1)
      == 16 * Pow2(digits);
  }

  lemma Three(two: int, odd: int)
    ensures 3 * (two * odd) == two * (3 * odd)
    ensures IsOdd(odd) ==> IsOdd(3 * odd)
  {
  }

  lemma NotWhole(x: nat, e: nat, odd: nat)
    requires x == Pow2(e) * odd && e < 32 && IsOdd(odd)
    ensures !WholeWords(x)
  {
    Pow32();
    hide Pow2, IsOdd;
    if x % 0x1_0000_0000 == 0 {
      OddPart(e, 32, odd, x / 0x1_0000_0000);
      assert false;
    }
  }

  lemma {:induction false} PowersOfTen(k: nat)
    ensures Pow10(k) == Pow2(k) * Pow5(k)
  {
    if k > 0 {
      PowersOfTen(k - 1);
      calc {
        2 * Pow2(k - 1) * (5 * Pow5(k - 1));
        10 * (Pow2(k - 1) * Pow5(k - 1));
      }
    }
  }

  lemma {:induction false} OddPow5(k: nat)
    ensures IsOdd(Pow5(k))
  {
    if k > 0 {
      OddPow5(k - 1);
    }
  }

  lemma OddProduct(x: nat, y: nat)
    requires IsOdd(x) && IsOdd(y)
    ensures IsOdd(x * y)
  {
    var a, b := x / 2, y / 2;
    OddTimes(x, y, a, b);
  }

  lemma OddTimes(x: nat, y: nat, a: nat, b: nat)
    requires x == 2 * a + 1 && y == 2 * b + 1
    ensures IsOdd(x * y)
  {
    var c := a * y + b;
    assert x * y == 2 * (a * y) + y;
    assert x * y == 2 * c + 1;
  }

  lemma {:induction false} OddPart(e: nat, w: nat, odd: nat, q: int)
    requires e < w && IsOdd(odd)
    ensures Pow2(e) * odd != q * Pow2(w)
  {
    Doubled(q, Pow2(w - 1));
    if e > 0 {
      hide IsOdd;
      OddPart(e - 1, w - 1, odd, q);
      Doubled(odd, Pow2(e - 1));
    }
  }

  lemma Doubled(q: int, p: int)
    ensures q * (2 * p) == 2 * (q * p) && 2 * p * q == 2 * (p * q)
  {
  }

  lemma {:induction false} DecimalCount(num: nat, k: nat)
    requires num < Pow10(k)
    ensures |Digits(num, 10)| <= k
  {
    if num > 0 {
      DecimalCount(num / 10, k - 1);
    }
  }

  /** Ten digits are enough for 32 bits and twenty for 64. */
  lemma DigitsFew(v: s64)
    ensures |DigitsOf(v)| <= 20 && (-0x8000_0000 <= v < 0x8000_0000 ==> |DigitsOf(v)| <= 10)
  {
    assert Pow10(4) == 10000;
    assert Pow10(8) == 1_0000_0000;
    assert Pow10(10) == 100_0000_0000;
    assert Pow10(14) == 100_0000_0000_0000;
    assert Pow10(18) == 100_0000_0000_0000_0000;
    assert Pow10(20) == 1_0000_0000_0000_0000_0000;
    hide Pow10, DigitText;
    DecimalCount(Abs(v), if -0x8000_0000 <= v < 0x8000_0000 then 10 else 20);
  }

  lemma NoNul(v: s64, width: int, padc: char)
    requires PadChar(padc)
    ensures '\0' !in DecimalText(v, width, padc)
  {
    DecimalTextIs(v, width, padc);
    DigitsSpell(v);
    hide DecimalText, DigitsOf, Spelled;
    var pads, t := Repeat(padc, width - |DigitsOf(v)|), DigitsOf(v);
    assert forall i :: 0 <= i < |t| ==> IsDecimal(t[i]);
  }

  lemma BufferHolds(buf: array<char>, s: string)
    requires |s| < buf.Length && buf[..|s| + 1] == s + ['\0'] && '\0' !in s
    ensures Holds(buf, s)
  {
    assert buf[..|s|] == buf[..|s| + 1][..|s|] == s;
    assert buf[|s|] == buf[..|s| + 1][|s|];
  }

  /** The whole trip through a buffer: what `sprintf` writes, `atol` reads back as the
      number exactly when the padding cannot be taken for a part of it. */
  method PrintThenParse(buf: array<char>, arg: s64, lflag: nat, width: int, padc: char) returns (r: s32)
    requires PadChar(padc) && |DecimalText(GetInt(arg, lflag), width, padc)| < buf.Length
    modifies buf
    ensures r == ToS32(arg) <==> ReadsBack(GetInt(arg, lflag), width, padc)
  {
    ghost var v := GetInt(arg, lflag);
    SameWord(arg, lflag);
    AtolOfDecimal(v, width, padc);
    NoNul(v, width, padc);
    hide *;
    var n := SprintfDecimal(buf, arg, lflag, width, padc);
    BufferHolds(buf, DecimalText(v, width, padc));
    r := Atol(buf, DecimalText(v, width, padc));
  }

  lemma SameWord(arg: s64, lflag: nat)
    ensures ToS32(GetInt(arg, lflag)) == ToS32(arg)
  {
  }

  /** Without a width the buffer of 12 characters takes every 32-bit number, and every
      number is read back. */
  lemma PlainDecimal(v: s64, padc: char)
    ensures ReadsBack(v, -1, padc)
    ensures -0x8000_0000 <= v < 0x8000_0000 ==> |DecimalText(v, -1, padc)| < 12
  {
    DigitsFew(v);
    DecimalTextIs(v, -1, padc);
    hide DecimalText, DigitsOf;
  }
}
