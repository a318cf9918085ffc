/** Integer formatting of `ee_printf.c`: `number`, which prints, and `skip_atoi`,
    which reads. */
module NumberFormat {
  import opened MachineInts

  datatype Flags = Flags(zeropad: bool, sign: bool, plus: bool, space: bool, left: bool, hexPrep: bool, uppercase: bool)

  datatype Option<T> = None | Some(value: T)

  // ---------------------------------------------------------------------- digits

  function Quot(v: nat, base: nat): nat
    requires base >= 2
  {
    v / base
  }

  function Rem(v: nat, base: nat): nat
    requires base >= 2
  {
    v % base
  }

  lemma DivMod(v: nat, base: nat)
    requires base >= 2
    ensures v == base * Quot(v, base) + Rem(v, base) && Rem(v, base) < base
  {
  }

  lemma Shrinks(v: nat, base: nat, q: nat, r: nat)
    requires base >= 2 && v == base * q + r
    ensures 2 * q <= v && (v > 0 ==> q < v)
  {
    assert base * q >= 2 * q;
  }

  lemma QuotSmaller(v: nat, base: nat)
    requires base >= 2
    ensures 2 * Quot(v, base) <= v && (v > 0 ==> Quot(v, base) < v) && Rem(v, base) < base
  {
    hide Quot, Rem;
    DivMod(v, base);
    Shrinks(v, base, Quot(v, base), Rem(v, base));
  }

  /** The digits of v in the base, least significant first; none for 0. */
  function Digits(v: nat, base: nat): (ds: seq<nat>)
    requires base >= 2
    ensures forall i :: 0 <= i < |ds| ==> ds[i] < base
  {
    if v == 0 then [] else
      QuotSmaller(v, base);
      [Rem(v, base)] + Digits(Quot(v, base), base)
  }

  /** What a digit sequence is worth. */
  function Value(ds: seq<nat>, base: nat): nat {
    if ds == [] then 0 else ds[0] + base * Value(ds[1..], base)
  }

  /** The digits are worth the number, and the highest is not 0. */
  lemma {:induction false} DigitsValue(v: nat, base: nat)
    requires base >= 2
    ensures Value(Digits(v, base), base) == v
    ensures v > 0 ==> Digits(v, base) != [] && Digits(v, base)[|Digits(v, base)| - 1] != 0
  {
    hide Quot, Rem;
    if v > 0 {
      DivMod(v, base);
      QuotSmaller(v, base);
      DigitsValue(Quot(v, base), base);
      assert Digits(v, base)[1..] == Digits(Quot(v, base), base);
    }
  }

  lemma {:induction false} DigitCount(v: nat, base: nat, k: nat)
    requires base >= 2 && v < Pow2(k)
    ensures |Digits(v, base)| <= k
  {
    hide Quot, Rem;
    if v > 0 {
      QuotSmaller(v, base);
      DigitCount(Quot(v, base), base, k - 1);
    }
  }

  lemma Pow32()
    ensures Pow2(32) == 0x1_0000_0000
  {
    assert Pow2(8) == 0x100;
    assert Pow2(16) == 0x1_0000;
    assert Pow2(24) == 0x100_0000;
  }

  const LOWER := "0123456789abcdefghijklmnopqrstuvwxyz"
  const UPPER := "0123456789ABCDEFGHIJKLMNOPQRSTUVWXYZ"

  function DigitChar(d: nat, uppercase: bool): char
    requires d < 36
  {
    if uppercase then UPPER[d] else LOWER[d]
  }

  /** Digits as text, most significant first. */
  function DigitText(ds: seq<nat>, uppercase: bool): (t: string)
    requires forall i :: 0 <= i < |ds| ==> ds[i] < 36
    ensures |t| == |ds|
  {
    if ds == [] then "" else DigitText(ds[1..], uppercase) + [DigitChar(ds[0], uppercase)]
  }

  // ----------------------------------------------------------------- what is printed

  function Repeat(c: char, n: int): (s: string)
    ensures |s| == if n > 0 then n else 0
    ensures forall i :: 0 <= i < |s| ==> s[i] == c
  {
    if n <= 0 then "" else Repeat(c, n - 1) + [c]
  }

  /** The value whose digits appear: the absolute value if signed, or else the number
      read as unsigned. */
  function Magnitude(num: s32, f: Flags): u32 {
    if f.sign && num < 0 then -(num as int) else num % 0x1_0000_0000
  }

  function SignText(num: s32, f: Flags): string {
    if !f.sign then "" else if num < 0 then "-" else if f.plus then "+" else if f.space then " " else ""
  }

  function PrefixText(base: int, f: Flags): string {
    if !f.hexPrep then "" else if base == 16 then "0x" else if base == 8 then "0" else ""
  }

  /** The digits of a number, one 0 for zero, least significant first. */
  function PrintedDigits(num: nat, base: nat): (ds: seq<nat>)
    requires base >= 2
    ensures ds != [] && forall i :: 0 <= i < |ds| ==> ds[i] < base
  {
    if num == 0 then [0] else Digits(num, base)
  }

  function NumberDigits(num: s32, base: int, f: Flags): (ds: seq<nat>)
    requires 2 <= base <= 36
    ensures ds != [] && forall i :: 0 <= i < |ds| ==> ds[i] < base
  {
    PrintedDigits(Magnitude(num, f), base)
  }

  function Max(a: int, b: int): int {
    if a >= b then a else b
  }

  /** The parts of a printed number, and the room left to fill. */
  datatype Layout = Layout(sign: string, prefix: string, zeros: nat, digits: string, room: int) {
    /** Blanks in front, or zeros behind the sign, or blanks behind, as the flags say. */
    function Text(f: Flags): string {
      (if f.left || f.zeropad then "" else Repeat(' ', room)) + sign + prefix
      + (if f.zeropad && !f.left then Repeat('0', room) else "")
      + Repeat('0', zeros) + digits + (if f.left then Repeat(' ', room) else "")
    }
  }

  function LayoutOf(num: s32, base: int, size: int, precision: int, f: Flags): Layout
    requires 2 <= base <= 36
  {
    var ds, sign, prefix := NumberDigits(num, base, f), SignText(num, f), PrefixText(base, f);
    Layout(sign, prefix, Max(precision, |ds|) - |ds|, DigitText(ds, f.uppercase),
           size - |sign| - |prefix| - Max(precision, |ds|))
  }

  function NumberText(num: s32, base: int, size: int, precision: int, f: Flags): string
    requires 2 <= base <= 36
  {
    LayoutOf(num, base, size, precision, f).Text(f)
  }

  /** The digits are worth the number, without leading zeros. */
  lemma {:induction false} DigitsWorth(num: s32, base: int, f: Flags)
    requires 2 <= base <= 36
    ensures var ds := NumberDigits(num, base, f);
      |ds| <= 32 && Value(ds, base) == Magnitude(num, f) && (|ds| > 1 ==> ds[|ds| - 1] != 0)
  {
    var v := Magnitude(num, f);
    DigitsValue(v, base);
    Pow32();
    DigitCount(v, base, 32);
    hide Magnitude, Digits, Pow2;
  }

  /** The field is as wide as asked, or as its contents need, and its digits are worth
      the number. */
  lemma {:induction false} NumberMeaning(num: s32, base: int, size: int, precision: int, f: Flags)
    requires 2 <= base <= 36
    ensures var l, ds := LayoutOf(num, base, size, precision, f), NumberDigits(num, base, f);
      && |NumberText(num, base, size, precision, f)| == Max(size, |l.sign| + |l.prefix| + Max(precision, |ds|))
      && |l.digits| == |ds| <= 32 && Value(ds, base) == Magnitude(num, f)
      && (|ds| > 1 ==> ds[|ds| - 1] != 0)
  {
    DigitsWorth(num, base, f);
    hide Magnitude, Digits, NumberDigits, DigitText, Repeat;
  }

  // ------------------------------------------------------------------- the program

  /** Fills `tmp` with the digit characters, least significant first. */
  method FillDigits(num0: s32, base: int, uppercase: bool, tmp: array<char>) returns (i: nat, ghost ds: seq<nat>)
    requires 2 <= base <= 36 && tmp.Length == 66
    modifies tmp
    ensures ds == PrintedDigits(num0 % 0x1_0000_0000, base)
    ensures i == |ds| <= 32 && forall k :: 0 <= k < i ==> ds[k] < 36 && tmp[k] == DigitChar(ds[k], uppercase)
  {
    var num: int := num0;
    i, ds := 0, [];
    if num == 0 {
      tmp[i] := '0';
      i, ds := 1, [0];
      assert DigitChar(0, uppercase) == '0';
    } else {
      i, ds := FillDigitsOf(num0 % 0x1_0000_0000, base, uppercase, tmp);
    }
  }

  /** The digit loop, on the number read as unsigned. */
  method FillDigitsOf(num0: u32, base: int, uppercase: bool, tmp: array<char>) returns (i: nat, ghost ds: seq<nat>)
    requires 2 <= base <= 36 && tmp.Length == 66
    modifies tmp
    ensures ds == Digits(num0, base)
    ensures i == |ds| <= 32 && forall k :: 0 <= k < i ==> ds[k] < 36 && tmp[k] == DigitChar(ds[k], uppercase)
  {
    hide *;
    Pow32();
    DigitCount(num0, base, 32);
    var num := num0;
    i, ds := 0, [];
    ghost var rest := Digits(num0, base);
    while num != 0
      invariant num >= 0 && rest == Digits(num, base)
      invariant Digits(num0, base) == ds + rest && |ds| + |rest| <= 32
      invariant i == |ds| && forall k :: 0 <= k < i ==> ds[k] < 36 && tmp[k] == DigitChar(ds[k], uppercase)
      decreases num
    {
      QuotSmaller(num, base);
      DigitsTurn(num, base, ds);
      tmp[i] := DigitChar(Rem(num, base), uppercase);
      i := i + 1;
      ds, rest := ds + [Rem(num, base)], Digits(Quot(num, base), base);
      num := Quot(num, base);
    }
    NoDigits(base);
  }

  lemma DigitsTurn(num: nat, base: nat, ds: seq<nat>)
    requires base >= 2 && num > 0
    ensures |Digits(num, base)| == 1 + |Digits(Quot(num, base), base)|
    ensures ds + Digits(num, base) == (ds + [Rem(num, base)]) + Digits(Quot(num, base), base)
  {
    hide Quot, Rem;
    QuotSmaller(num, base);
  }

  lemma NoDigits(base: nat)
    requires base >= 2
    ensures Digits(0, base) == []
  {
  }

  lemma SignedMagnitude(num: s32, f: Flags)
    ensures (if f.sign && num < 0 then ToS32(-(num as int)) else num) as int % 0x1_0000_0000 == Magnitude(num, f)
  {
  }

  method Pad(str0: string, c: char, size0: int) returns (str: string, size: int)
    ensures str == str0 + Repeat(c, size0)
    ensures size == if size0 > 0 then -1 else size0 - 1
  {
    str, size := str0, size0;
    while size > 0
      invariant size0 > 0 ==> 0 <= size <= size0
      invariant size0 <= 0 ==> size == size0
      invariant str == str0 + Repeat(c, size0 - size)
    {
      str := str + [c];
      size := size - 1;
    }
    size := size - 1;
  }

  /** Takes the sign off and makes room for it. */
  method TakeSign(num0: s32, size0: int, f: Flags) returns (sign: string, num: s32, size: int)
    ensures sign == SignText(num0, f) && size == size0 - |sign|
    ensures num as int % 0x1_0000_0000 == Magnitude(num0, f)
  {
    SignedMagnitude(num0, f);
    hide Magnitude;
    sign, num, size := "", num0, size0;
    if f.sign {
      if num < 0 {
        sign := "-";
        num := ToS32(-(num as int));
        size := size - 1;
      } else if f.plus {
        sign := "+";
        size := size - 1;
      } else if f.space {
        sign := " ";
        size := size - 1;
      }
    }
  }

  /** Appends the formatted number, or gives up on a base it cannot print. */
  method Number(str0: string, num0: s32, base: int, size0: int, precision0: int,
                type0: Flags) returns (r: Option<string>)
    ensures base < 2 || base > 36 ==> r == None
    ensures 2 <= base <= 36 ==> r == Some(str0 + NumberText(num0, base, size0, precision0, type0))
  {
    hide Layout.Text, Magnitude, SignText, Digits, DigitText, DigitChar;
    var f := type0;
    if f.left {
      f := f.(zeropad := false);
    }
    if base < 2 || base > 36 {
      return None;
    }
    var c := if f.zeropad then '0' else ' ';
    var sign, num, size := TakeSign(num0, size0, f);
    if f.hexPrep {
      if base == 16 {
        size := size - 2;
      } else if base == 8 {
        size := size - 1;
      }
    }
    var tmp := new char[66];
    var i;
    ghost var ds;
    i, ds := FillDigits(num, base, f.uppercase, tmp);
    var precision := if i > precision0 then i else precision0;
    size := size - precision;
    FlagsNormalized(num0, base, size0, precision0, type0, f);
    var str := Emit(str0, sign, base, f, c, size, precision, i, ds, tmp);
    r := Some(str);
  }

  /** Left justification overrides zero padding. */
  lemma FlagsNormalized(num: s32, base: int, size: int, precision: int, type0: Flags, f: Flags)
    requires 2 <= base <= 36 && f == (if type0.left then type0.(zeropad := false) else type0)
    ensures SignText(num, f) == SignText(num, type0) && PrefixText(base, f) == PrefixText(base, type0)
    ensures NumberDigits(num, base, f) == NumberDigits(num, base, type0) && Magnitude(num, f) == Magnitude(num, type0)
    ensures forall l: Layout :: l.Text(f) == l.Text(type0)
  {
  }

  /** The output half of `number`. */
  method Emit(str0: string, sign: string, base: int, f: Flags, c: char, size0: int, precision0: int, i0: nat,
              ghost ds: seq<nat>, tmp: array<char>)
    returns (str: string)
    requires 2 <= base <= 36 && !(f.left && f.zeropad) && c == (if f.zeropad then '0' else ' ')
    requires tmp.Length == 66 && i0 == |ds| <= 32 && precision0 >= i0
    requires forall k :: 0 <= k < i0 ==> ds[k] < 36 && tmp[k] == DigitChar(ds[k], f.uppercase)
    ensures str == str0 + Layout(sign, PrefixText(base, f), precision0 - i0, DigitText(ds, f.uppercase), size0).Text(f)
  {
    hide *;
    var size := size0;
    str := str0;
    if !f.zeropad && !f.left {
      str, size := Pad(str, ' ', size);
    }
    ghost var front := if f.left || f.zeropad then "" else Repeat(' ', size0);
    assert str == str0 + front;
    str := str + sign;
    str := EmitPrefix(str, base, f);
    assert str == str0 + front + sign + PrefixText(base, f);
    RepeatNone(c, size);
    if !f.left {
      str, size := Pad(str, c, size);
    }
    ghost var middle := if f.zeropad && !f.left then Repeat('0', size0) else "";
    assert str == str0 + front + sign + PrefixText(base, f) + middle;
    var rest;
    str, rest := Pad(str, '0', precision0 - i0);
    str := EmitDigits(str, i0, ds, f.uppercase, tmp);
    RepeatNone(' ', size);
    str, size := Pad(str, ' ', size);
    ghost var back := if f.left then Repeat(' ', size0) else "";
    LayoutText(str0, Layout(sign, PrefixText(base, f), precision0 - i0, DigitText(ds, f.uppercase), size0), f, front,
      middle, back);
  }

  lemma LayoutText(str0: string, l: Layout, f: Flags, front: string, middle: string, back: string)
    requires front == (if f.left || f.zeropad then "" else Repeat(' ', l.room))
    requires middle == (if f.zeropad && !f.left then Repeat('0', l.room) else "")
    requires back == (if f.left then Repeat(' ', l.room) else "")
    ensures str0 + front + l.sign + l.prefix + middle + Repeat('0', l.zeros) + l.digits + back == str0 + l.Text(f)
  {
    hide Repeat;
  }

  method EmitPrefix(str0: string, base: int, f: Flags) returns (str: string)
    ensures str == str0 + PrefixText(base, f)
  {
    str := str0;
    if f.hexPrep {
      if base == 8 {
        str := str + ['0'];
      } else if base == 16 {
        str := str + ['0'];
        str := str + [LOWER[33]];
      }
    }
  }

  lemma RepeatNone(c: char, n: int)
    ensures n <= 0 ==> Repeat(c, n) == ""
  {
  }

  method EmitDigits(str0: string, i0: nat, ghost ds: seq<nat>, uppercase: bool, tmp: array<char>) returns (str: string)
    requires tmp.Length == 66 && i0 == |ds| <= 32
    requires forall k :: 0 <= k < i0 ==> ds[k] < 36 && tmp[k] == DigitChar(ds[k], uppercase)
    ensures str == str0 + DigitText(ds, uppercase)
  {
    str := str0;
    var i := i0;
    while i > 0
      invariant 0 <= i <= i0
      invariant str == str0 + DigitText(ds[i..], uppercase)
    {
      i := i - 1;
      assert ds[i..][1..] == ds[i + 1..];
      str := str + [tmp[i]];
    }
  }

  // ----------------------------------------------------------------- reading back

  predicate IsDecimal(c: char) {
    '0' <= c <= '9'
  }

  /** The number a text spells, continuing from acc; any character counts as its distance
      from '0'. */
  function Spelled(t: string, acc: int): int {
    if t == "" then acc else Spelled(t[1..], acc * 10 + (t[0] as int - '0' as int))
  }

  /** Where the run of digits at i ends. */
  function DigitsEnd(s: string, i: nat): (j: nat)
    requires i <= |s|
    ensures i <= j <= |s| && (j < |s| ==> !IsDecimal(s[j]))
    ensures forall k :: i <= k < j ==> IsDecimal(s[k])
    decreases |s| - i
  {
    if i < |s| && IsDecimal(s[i]) then DigitsEnd(s, i + 1) else i
  }

  /** Reads a run of digits in 32-bit arithmetic and steps past it. */
  method SkipAtoi(s: string, pos: nat) returns (i: s32, end: nat)
    requires pos <= |s|
    ensures end == DigitsEnd(s, pos) && i == ToS32(Spelled(s[pos..end], 0))
  {
    hide ToS32, Spelled;
    i, end := 0, pos;
    ghost var stop := DigitsEnd(s, pos);
    NothingRead(s, pos);
    while end < |s| && IsDecimal(s[end])
      invariant pos <= end <= stop == DigitsEnd(s, end)
      invariant i == ToS32(Spelled(s[pos..end], 0))
      decreases |s| - end
    {
      OneMoreRead(s, pos, end);
      i := ToS32(i as int * 10 + s[end] as int - '0' as int);
      end := end + 1;
    }
  }

  lemma NothingRead(s: string, pos: nat)
    requires pos <= |s|
    ensures ToS32(Spelled(s[pos..pos], 0)) == 0
  {
    WrapSmall(0);
    assert s[pos..pos] == "";
  }

  lemma OneMoreRead(s: string, pos: nat, end: nat)
    requires pos <= end < |s|
    ensures ToS32(Spelled(s[pos..end + 1], 0))
      == ToS32(ToS32(Spelled(s[pos..end], 0)) as int * 10 + s[end] as int - '0' as int)
  {
    hide *;
    SpelledSnoc(s[pos..end], s[end], 0);
    assert s[pos..end + 1] == s[pos..end] + [s[end]];
    WrapTimes10(Spelled(s[pos..end], 0), s[end] as int - '0' as int);
  }

  lemma WrapSmall(x: s32)
    ensures ToS32(x) == x
  {
  }

  lemma WrapTimes10(x: int, d: int)
    ensures ToS32(ToS32(x) as int * 10 + d) == ToS32(x * 10 + d)
  {
    var k := (x + 0x8000_0000) / 0x1_0000_0000;
    assert ToS32(x) == x - k * 0x1_0000_0000;
    Wrap32(x * 10 + d, 10 * k);
  }

  lemma {:induction false} SpelledSnoc(t: string, c: char, acc: int)
    ensures Spelled(t + [c], acc) == Spelled(t, acc) * 10 + (c as int - '0' as int)
  {
    if t != "" {
      SpelledSnoc(t[1..], c, acc * 10 + (t[0] as int - '0' as int));
      assert (t + [c])[1..] == t[1..] + [c];
    }
  }

  /** Printed decimal digits spell their value. */
  lemma {:induction false} DigitTextSpells(ds: seq<nat>, uppercase: bool)
    requires forall i :: 0 <= i < |ds| ==> ds[i] < 10
    ensures forall i :: 0 <= i < |ds| ==> IsDecimal(DigitText(ds, uppercase)[i])
    ensures Spelled(DigitText(ds, uppercase), 0) == Value(ds, 10)
  {
    if ds != [] {
      DigitTextSpells(ds[1..], uppercase);
      DecimalChar(ds[0], uppercase);
      SpelledSnoc(DigitText(ds[1..], uppercase), DigitChar(ds[0], uppercase), 0);
    }
  }

  lemma DecimalChar(d: nat, uppercase: bool)
    requires d < 10
    ensures IsDecimal(DigitChar(d, uppercase)) && DigitChar(d, uppercase) as int - '0' as int == d
  {
  }

  /** Leading zeros spell nothing. */
  lemma {:induction false} ZerosSpell(n: int, t: string)
    requires Decimal(t)
    ensures Decimal(Repeat('0', n) + t)
    ensures Spelled(Repeat('0', n) + t, 0) == Spelled(t, 0)
  {
    if n > 0 {
      ZerosSpell(n - 1, t);
      assert Repeat('0', n) + t == ['0'] + (Repeat('0', n - 1) + t);
      assert (Repeat('0', n) + t)[1..] == Repeat('0', n - 1) + t;
    } else {
      assert Repeat('0', n) + t == t;
    }
  }

  /** Past the blanks at i. */
  function BlanksEnd(s: string, i: nat): (j: nat)
    requires i <= |s|
    ensures i <= j <= |s|
    decreases |s| - i
  {
    if i < |s| && s[i] == ' ' then BlanksEnd(s, i + 1) else i
  }

  /** Reads a number field: blanks, an optional sign, digits in 32-bit arithmetic. */
  function ReadField(s: string): s32 {
    var i := BlanksEnd(s, 0);
    var negative := i < |s| && s[i] == '-';
    var j := if i < |s| && (s[i] == '-' || s[i] == '+') then i + 1 else i;
    var v := ToS32(Spelled(s[j..DigitsEnd(s, j)], 0));
    if negative then ToS32(-(v as int)) else v
  }

  lemma {:induction false} BlanksAt(s: string, i: nat, j: nat)
    requires i <= j <= |s| && forall k :: i <= k < j ==> s[k] == ' '
    requires j < |s| ==> s[j] != ' '
    ensures BlanksEnd(s, i) == j
    decreases j - i
  {
    if i < j {
      BlanksAt(s, i + 1, j);
    }
  }

  lemma {:induction false} DigitsAt(s: string, i: nat, j: nat)
    requires i <= j <= |s| && forall k :: i <= k < j ==> IsDecimal(s[k])
    requires j < |s| ==> !IsDecimal(s[j])
    ensures DigitsEnd(s, i) == j
    decreases j - i
  {
    if i < j {
      DigitsAt(s, i + 1, j);
    }
  }

  /** A number field: blanks, a sign, digits, blanks. */
  function Field(front: string, sign: string, digits: string, back: string): (s: string)
    ensures |s| == |front| + |sign| + |digits| + |back|
  {
    front + sign + digits + back
  }

  /** The characters of a field, part by part. */
  lemma FieldAt(front: string, sign: string, digits: string, back: string)
    ensures var s, j := Field(front, sign, digits, back), |front| + |sign|;
      && (forall k :: 0 <= k < |front| ==> s[k] == front[k])
      && (|sign| == 1 ==> s[|front|] == sign[0])
      && (forall k :: j <= k < j + |digits| ==> s[k] == digits[k - j])
      && (back != "" ==> s[j + |digits|] == back[0])
      && s[j..j + |digits|] == digits
  {
  }

  /** Where a field's blanks, sign and digits end. */
  lemma FieldShape(front: string, sign: string, digits: string, back: string)
    requires Blank(front) && Blank(back) && Decimal(digits)
    requires IsSign(sign)
    ensures var s, i, j := Field(front, sign, digits, back), |front| + (if sign == " " then 1 else 0), |front| + |sign|;
      && BlanksEnd(s, 0) == i < |s| && DigitsEnd(s, j) == j + |digits| && s[j..j + |digits|] == digits
      && (s[i] == '-' <==> sign == "-") && (s[i] == '+' <==> sign == "+")
  {
    FieldAt(front, sign, digits, back);
    hide BlanksEnd, DigitsEnd, Field;
    var s, i, j := Field(front, sign, digits, back), |front| + (if sign == " " then 1 else 0), |front| + |sign|;
    assert s[j] == digits[0];
    BlanksAt(s, 0, i);
    DigitsAt(s, j, j + |digits|);
  }

  predicate Blank(t: string) {
    forall i :: 0 <= i < |t| ==> t[i] == ' '
  }

  predicate IsSign(sign: string) {
    sign == "" || sign == "-" || sign == "+" || sign == " "
  }

  /** The magnitude, negated in 32-bit arithmetic behind a minus sign. */
  function SignedValue(sign: string, v: s32): s32 {
    if sign == "-" then ToS32(-(v as int)) else v
  }

  predicate Decimal(t: string) {
    t != "" && forall i :: 0 <= i < |t| ==> IsDecimal(t[i])
  }

  /** A field made of blanks, a sign, digits and blanks reads as its digits say. */
  lemma FieldReads(front: string, sign: string, digits: string, back: string)
    requires Blank(front) && Blank(back) && Decimal(digits)
    requires IsSign(sign)
    ensures ReadField(Field(front, sign, digits, back)) ==
      SignedValue(sign, ToS32(Spelled(digits, 0)))
  {
    FieldShape(front, sign, digits, back);
    hide Field, Spelled, BlanksEnd, DigitsEnd, ToS32, Blank;
  }

  /** Whatever the width, precision and flags, a decimal field reads
      back as the number that was printed, the most negative one included. */
  lemma {:induction false} PrintedReadsBack(num: s32, size: int, precision: int, f: Flags)
    ensures ReadField(NumberText(num, 10, size, precision, f)) == num
  {
    var l := LayoutOf(num, 10, size, precision, f);
    var pad := if f.zeropad && !f.left then l.room else 0;
    var front := if f.left || f.zeropad then "" else Repeat(' ', l.room);
    var back := if f.left then Repeat(' ', l.room) else "";
    var digits := Repeat('0', pad) + (Repeat('0', l.zeros) + l.digits);
    DecimalParts(num, size, precision, f, pad);
    hide *;
    BlankParts(l.room, f);
    FieldReads(front, l.sign, digits, back);
    TextParts(l, f, front, pad, back);
    TextIs(num, 10, size, precision, f);
    SignRestores(num, f);
  }

  lemma TextIs(num: s32, base: int, size: int, precision: int, f: Flags)
    requires 2 <= base <= 36
    ensures NumberText(num, base, size, precision, f) == LayoutOf(num, base, size, precision, f).Text(f)
  {
  }

  lemma BlankParts(room: int, f: Flags)
    ensures Blank(if f.left || f.zeropad then "" else Repeat(' ', room))
      && Blank(if f.left then Repeat(' ', room) else "")
  {
  }

  /** The zeros and digits of a decimal field spell the magnitude. */
  lemma DecimalParts(num: s32, size: int, precision: int, f: Flags, pad: int)
    ensures var l := LayoutOf(num, 10, size, precision, f);
      var digits := Repeat('0', pad) + (Repeat('0', l.zeros) + l.digits);
      && l.prefix == "" && l.sign == SignText(num, f) && IsSign(l.sign)
      && Decimal(digits) && Spelled(digits, 0) == Magnitude(num, f)
  {
    var l, ds := LayoutOf(num, 10, size, precision, f), NumberDigits(num, 10, f);
    DigitsWorth(num, 10, f);
    DigitTextSpells(ds, f.uppercase);
    hide NumberDigits, Magnitude, Digits, DigitText, Spelled, Value, IsDecimal, Repeat;
    ZerosSpell(l.zeros, l.digits);
    ZerosSpell(pad, Repeat('0', l.zeros) + l.digits);
  }

  lemma TextParts(l: Layout, f: Flags, front: string, pad: int, back: string)
    requires l.prefix == "" && pad == (if f.zeropad && !f.left then l.room else 0)
    requires front == (if f.left || f.zeropad then "" else Repeat(' ', l.room))
    requires back == (if f.left then Repeat(' ', l.room) else "")
    ensures l.Text(f) == Field(front, l.sign, Repeat('0', pad) + (Repeat('0', l.zeros) + l.digits), back)
  {
    RepeatNone('0', 0);
    hide Repeat;
    var z, d := Repeat('0', l.zeros), l.digits;
    var p := if f.zeropad && !f.left then Repeat('0', l.room) else "";
    assert p == Repeat('0', pad);
    assert front + l.sign + "" + p + z + d + back == front + l.sign + (p + (z + d)) + back;
  }

  lemma SignRestores(num: s32, f: Flags)
    ensures SignedValue(SignText(num, f), ToS32(Magnitude(num, f))) == num
  {
  }

  // -------------------------------------------------------------------- digits in any base

  /** What a character is worth as a digit; 36 if it is none. */
  function DigitOf(c: char): nat {
    if '0' <= c <= '9' then c as nat - '0' as nat
    else if 'a' <= c <= 'z' then c as nat - 'a' as nat + 10
    else if 'A' <= c <= 'Z' then c as nat - 'A' as nat + 10
    else 36
  }

  /** The number a text of digits spells, most significant first. */
  function Worth(t: string, base: nat): nat {
    if t == "" then 0 else Worth(t[..|t| - 1], base) * base + DigitOf(t[|t| - 1])
  }

  /** Digits of the base, letters of one case only. */
  predicate Numeral(t: string, base: nat, upper: bool) {
    t != "" && forall i :: 0 <= i < |t| ==>
      DigitOf(t[i]) < base && !(if upper then 'a' <= t[i] <= 'z' else 'A' <= t[i] <= 'Z')
  }

  lemma WorthSnoc(t: string, c: char, base: nat)
    ensures Worth(t + [c], base) == Worth(t, base) * base + DigitOf(c)
  {
    assert (t + [c])[..|t|] == t;
  }

  lemma WorthNothing(base: nat)
    ensures Worth("", base) == 0
  {
  }

  /** The printed character of a digit reads as that digit, in its case. */
  lemma CharReads(d: nat, upper: bool)
    requires d < 36
    ensures DigitOf(DigitChar(d, upper)) == d
    ensures var c := DigitChar(d, upper); !(if upper then 'a' <= c <= 'z' else 'A' <= c <= 'Z')
    ensures DigitChar(d, upper) == '0' <==> d == 0
  {
    var c := DigitChar(d, upper);
    if d < 10 {
      assert c == '0' + d as char;
    } else if upper {
      assert c == 'A' + (d - 10) as char;
    } else {
      assert c == 'a' + (d - 10) as char;
    }
  }

  predicate AllDigits(t: string, base: nat, upper: bool) {
    forall i :: 0 <= i < |t| ==>
      DigitOf(t[i]) < base && !(if upper then 'a' <= t[i] <= 'z' else 'A' <= t[i] <= 'Z')
  }

  /** Printed digits are worth what they stand for. */
  lemma {:induction false} TextReads(ds: seq<nat>, base: nat, upper: bool)
    requires base <= 36 && forall i :: 0 <= i < |ds| ==> ds[i] < base
    ensures AllDigits(DigitText(ds, upper), base, upper) && Worth(DigitText(ds, upper), base) == Value(ds, base)
    ensures ds != [] ==> (DigitText(ds, upper)[0] == '0' <==> ds[|ds| - 1] == 0)
  {
    hide DigitChar, DigitOf, Worth;
    if ds == [] {
      WorthNothing(base);
    } else {
      var t := DigitText(ds[1..], upper);
      TextReads(ds[1..], base, upper);
      CharReads(ds[0], upper);
      WorthSnoc(t, DigitChar(ds[0], upper), base);
    }
  }

  /** Leading zeros are worth nothing. */
  lemma {:induction false} ZerosRead(n: int, t: string, base: nat, upper: bool)
    requires AllDigits(t, base, upper) && base > 0
    ensures AllDigits(Repeat('0', n) + t, base, upper) && Worth(Repeat('0', n) + t, base) == Worth(t, base)
  {
    ZerosInFront(n, t, base);
    hide Worth, Repeat;
    ZeroDigits(n, base, upper);
  }

  lemma {:induction false} ZerosInFront(n: int, t: string, base: nat)
    ensures Worth(Repeat('0', n) + t, base) == Worth(t, base)
    decreases |t|
  {
    hide *;
    var z := Repeat('0', n);
    if t == "" {
      assert z + t == z;
      ZerosWorth(n, base);
      WorthNothing(base);
    } else {
      var front, c := t[..|t| - 1], t[|t| - 1];
      ZerosInFront(n, front, base);
      assert t == front + [c] && z + t == (z + front) + [c];
      WorthSnoc(z + front, c, base);
      WorthSnoc(front, c, base);
    }
  }

  lemma ZeroDigits(n: int, base: nat, upper: bool)
    requires base > 0
    ensures AllDigits(Repeat('0', n), base, upper)
  {
  }

  lemma {:induction false} ZerosWorth(n: int, base: nat)
    ensures Worth(Repeat('0', n), base) == 0
  {
    if n > 0 {
      ZerosWorth(n - 1, base);
      WorthSnoc(Repeat('0', n - 1), '0', base);
    }
  }

  lemma NumeralIs(t: string, base: nat, upper: bool)
    ensures Numeral(t, base, upper) <==> t != "" && AllDigits(t, base, upper)
  {
  }

  lemma PrintedWorth(num: nat, base: nat)
    requires base >= 2
    ensures var ds := PrintedDigits(num, base); Value(ds, base) == num && (|ds| > 1 ==> ds[|ds| - 1] != 0)
  {
    DigitsValue(num, base);
    assert Value([0], base) == 0 + base * Value([], base);
    hide Digits;
  }
}
