/** `ee_vsprintf` of `ee_printf.c`: the interpreter of format strings.

    A format is its characters up to the terminating NUL; output is the text written
    through `str`; an argument list is a list of 32-bit words, behind which stand the
    strings and bytes they point to. */
module FormatString {
  import opened MachineInts
  import opened NumberFormat

  /** What `va_arg` delivers, and what the pointers among it point to. */
  datatype Args = Args(word: nat -> u32, text: u32 -> string, byte: int -> u8) {
    /** Strings end at their first NUL. */
    ghost predicate Valid() {
      forall p :: '\0' !in text(p)
    }
  }

  const PLAIN := Flags(false, false, false, false, false, false, false)

  /** The character under the cursor, NUL at the end. */
  function At(fmt: string, i: nat): char {
    if i < |fmt| then fmt[i] else '\0'
  }

  predicate IsFlag(c: char) {
    c == '-' || c == '+' || c == ' ' || c == '#' || c == '0'
  }

  function WithFlag(f: Flags, c: char): Flags {
    if c == '-' then f.(left := true)
    else if c == '+' then f.(plus := true)
    else if c == ' ' then f.(space := true)
    else if c == '#' then f.(hexPrep := true)
    else if c == '0' then f.(zeropad := true)
    else f
  }

  // ---------------------------------------------------------- what a directive means

  /** A directive up to its conversion character: flags, width, precision, the qualifier,
      where the cursor stands and how many arguments are used. */
  datatype Spec = Spec(flags: Flags, width: s32, precision: s32, qualifier: char, at: nat, used: nat)

  function ParseFlags(fmt: string, s: Spec): (r: Spec)
    requires s.at <= |fmt|
    ensures s.at <= r.at <= |fmt| && !IsFlag(At(fmt, r.at)) && r == s.(flags := r.flags, at := r.at)
    decreases |fmt| - s.at
  {
    if IsFlag(At(fmt, s.at)) then ParseFlags(fmt, s.(flags := WithFlag(s.flags, At(fmt, s.at)), at := s.at + 1)) else s
  }

  /** A number, or `*` for the next argument, or nothing. */
  function NumberAt(fmt: string, i: nat): s32
    requires i <= |fmt|
  {
    ToS32(Spelled(fmt[i..DigitsEnd(fmt, i)], 0))
  }

  /** A negative `*` width is a positive one with the '-' flag. */
  function ParseWidth(fmt: string, args: Args, s: Spec): (r: Spec)
    requires s.at <= |fmt|
    ensures s.at <= r.at <= |fmt|
  {
    if IsDecimal(At(fmt, s.at)) then s.(width := NumberAt(fmt, s.at), at := DigitsEnd(fmt, s.at))
    else if At(fmt, s.at) == '*' then
      var w := ToS32(args.word(s.used));
      var t := s.(at := s.at + 1, used := s.used + 1);
      if w < 0 then t.(width := ToS32(-(w as int)), flags := s.flags.(left := true)) else t.(width := w)
    else s.(width := -1)
  }

  /** A precision that is missing behind its dot, or negative, is 0. */
  function ParsePrecision(fmt: string, args: Args, s: Spec): (r: Spec)
    requires s.at <= |fmt|
    ensures s.at <= r.at <= |fmt| && r.precision >= -1
  {
    if At(fmt, s.at) == '.' then
      var t := s.(at := s.at + 1);
      if IsDecimal(At(fmt, t.at)) then t.(precision := Max(NumberAt(fmt, t.at), 0), at := DigitsEnd(fmt, t.at))
      else if At(fmt, t.at) == '*' then t.(precision := Max(ToS32(args.word(t.used)), 0), at := t.at + 1,
        used := t.used + 1)
      else t.(precision := 0)
    else s.(precision := -1)
  }

  function ParseQualifier(fmt: string, s: Spec): (r: Spec)
    requires s.at <= |fmt|
    ensures s.at <= r.at <= |fmt| && r.precision == s.precision
  {
    if At(fmt, s.at) == 'l' || At(fmt, s.at) == 'L' then s.(qualifier := At(fmt, s.at), at := s.at + 1)
    else s.(qualifier := '\0')
  }

  /** The directive whose '%' is at i: the cursor goes on, but never past the NUL. */
  function Parse(fmt: string, args: Args, i: nat, used: nat): (s: Spec)
    requires i < |fmt|
    ensures i < s.at <= |fmt| && s.precision >= -1
  {
    var s := ParseFlags(fmt, Spec(PLAIN, -1, -1, '\0', i + 1, used));
    ParseQualifier(fmt, ParsePrecision(fmt, args, ParseWidth(fmt, args, s)))
  }

  /** Text in a field of at least the width, blanks on one side. */
  function Padded(text: string, width: int, left: bool): string {
    if left then text + Repeat(' ', width - |text|) else Repeat(' ', width - |text|) + text
  }

  /** The string argument, cut to the precision; none, which is -1, counts as 2^32 - 1. */
  function StringText(args: Args, p: u32, precision: int): string {
    var s, n := if p == 0 then "<NULL>" else args.text(p), precision % 0x1_0000_0000;
    if n < |s| then s[..n] else s
  }

  /** Six bytes as hexadecimal pairs between colons. */
  function EthernetText(args: Args, p: int, uppercase: bool, n: nat): string {
    if n == 0 then "" else
      var b := args.byte(p + n - 1);
      EthernetText(args, p, uppercase, n - 1) + (if n > 1 then ":" else "") + [DigitChar(b / 16, uppercase),
        DigitChar(b % 16, uppercase)]
  }

  /** Four bytes in decimal between dots. */
  function InternetText(args: Args, p: int, n: nat): string {
    if n == 0 then "" else
      InternetText(args, p, n - 1) + (if n > 1 then "." else "") + DigitText(PrintedDigits(args.byte(p + n - 1), 10),
        false)
  }

  predicate IsInteger(c: char) {
    c == 'o' || c == 'X' || c == 'x' || c == 'd' || c == 'i' || c == 'u'
  }

  function IntegerText(s: Spec, c: char, w: u32): string
    requires IsInteger(c)
  {
    var base := if c == 'o' then 8 else if c == 'x' || c == 'X' then 16 else 10;
    var f :=
      if c == 'X' then s.flags.(uppercase := true)
      else if c == 'd' || c == 'i' then s.flags.(sign := true)
      else s.flags;
    NumberText(ToS32(w), base, s.width, s.precision, f)
  }

  function PointerText(s: Spec, w: u32): string {
    if s.width == -1 then NumberText(ToS32(w), 16, 8, s.precision, s.flags.(zeropad := true))
    else NumberText(ToS32(w), 16, s.width, s.precision, s.flags)
  }

  predicate TakesArgument(c: char) {
    c == 'c' || c == 's' || c == 'p' || c == 'A' || c == 'a' || IsInteger(c)
  }

  /** What the directive prints; one that is not known, or cut off by the end of the
      format, prints its '%' and its last character. */
  function FieldText(s: Spec, c: char, args: Args): string
    requires s.precision >= -1
  {
    var w := args.word(s.used);
    if c == 'c' then Padded([(w % 0x100) as char], s.width, s.flags.left)
    else if c == 's' then Padded(StringText(args, w, s.precision), s.width, s.flags.left)
    else if c == 'p' then PointerText(s, w)
    else if c == 'A' || c == 'a' then
      Padded(if s.qualifier == 'l' then EthernetText(args, w, c == 'A', 6) else InternetText(args, w, 4), s.width,
        s.flags.left)
    else if IsInteger(c) then IntegerText(s, c, w)
    else (if c != '%' then "%" else "") + (if c != '\0' then [c] else "")
  }

  /** Where the cursor goes on: behind the conversion, or at the NUL that cut it off. */
  function After(fmt: string, s: Spec): nat {
    if s.at < |fmt| then s.at + 1 else s.at
  }

  function UsedAfter(s: Spec, c: char): nat {
    if TakesArgument(c) then s.used + 1 else s.used
  }

  /** What the format prints from position i on. */
  function Output(fmt: string, args: Args, i: nat, used: nat): string
    requires i <= |fmt|
    decreases |fmt| - i
  {
    if i == |fmt| then ""
    else if fmt[i] != '%' then [fmt[i]] + Output(fmt, args, i + 1, used)
    else
      var s := Parse(fmt, args, i, used);
      FieldText(s, At(fmt, s.at), args) + Output(fmt, args, After(fmt, s), UsedAfter(s, At(fmt, s.at)))
  }

  // ------------------------------------------------------------------- the program

  method ReadFlags(fmt: string, i: nat, used: nat) returns (flags: Flags, pos: nat)
    requires i < |fmt|
    ensures pos <= |fmt| && ParseFlags(fmt, Spec(PLAIN, -1, -1, '\0', i + 1, used))
      == Spec(flags, -1, -1, '\0', pos, used)
  {
    hide WithFlag;
    flags, pos := PLAIN, i + 1;
    while IsFlag(At(fmt, pos))
      invariant pos <= |fmt|
      invariant ParseFlags(fmt, Spec(PLAIN, -1, -1, '\0', i + 1, used)) == ParseFlags(fmt,
        Spec(flags, -1, -1, '\0', pos, used))
      decreases |fmt| - pos
    {
      flags := WithFlag(flags, At(fmt, pos));
      pos := pos + 1;
    }
  }

  method ReadWidth(fmt: string, args: Args, s: Spec) returns (r: Spec)
    requires s.at <= |fmt|
    ensures r == ParseWidth(fmt, args, s)
  {
    hide ToS32, Spelled;
    var fieldWidth, flags, pos, used := -1, s.flags, s.at, s.used;
    if IsDecimal(At(fmt, pos)) {
      fieldWidth, pos := SkipAtoi(fmt, pos);
    } else if At(fmt, pos) == '*' {
      pos := pos + 1;
      fieldWidth := ToS32(args.word(used));
      used := used + 1;
      if fieldWidth < 0 {
        fieldWidth := ToS32(-(fieldWidth as int));
        flags := flags.(left := true);
      }
    }
    r := s.(flags := flags, width := fieldWidth, at := pos, used := used);
  }

  method ReadPrecision(fmt: string, args: Args, s: Spec) returns (r: Spec)
    requires s.at <= |fmt|
    ensures r == ParsePrecision(fmt, args, s)
  {
    hide ToS32, Spelled;
    var precision, pos, used := -1, s.at, s.used;
    if At(fmt, pos) == '.' {
      pos := pos + 1;
      if IsDecimal(At(fmt, pos)) {
        precision, pos := SkipAtoi(fmt, pos);
      } else if At(fmt, pos) == '*' {
        pos := pos + 1;
        precision := ToS32(args.word(used));
        used := used + 1;
      }
      if precision < 0 {
        precision := 0;
      }
    }
    r := s.(precision := precision, at := pos, used := used);
  }

  method ReadDirective(fmt: string, args: Args, i: nat, used: nat) returns (s: Spec)
    requires i < |fmt|
    ensures s == Parse(fmt, args, i, used)
  {
    hide ParseFlags, ParseWidth, ParsePrecision;
    var flags, pos := ReadFlags(fmt, i, used);
    s := ReadWidth(fmt, args, Spec(flags, -1, -1, '\0', pos, used));
    s := ReadPrecision(fmt, args, s);
    if At(fmt, s.at) == 'l' || At(fmt, s.at) == 'L' {
      s := s.(qualifier := At(fmt, s.at), at := s.at + 1);
    } else {
      s := s.(qualifier := '\0');
    }
  }

  /** `while (len < size--) *str++ = ' '` */
  method PadTo(str0: string, len: int, size0: int) returns (str: string, size: int)
    ensures str == str0 + Repeat(' ', size0 - len) && size == (if len < size0 then len else size0) - 1
  {
    str, size := str0, size0;
    while len < size
      invariant len < size0 ==> len <= size <= size0
      invariant len >= size0 ==> size == size0
      invariant str == str0 + Repeat(' ', size0 - size)
    {
      str := str + [' '];
      size := size - 1;
    }
    size := size - 1;
  }

  /** Text in a field of blanks: what strings and addresses share. */
  method EmitPadded(str0: string, text: string, size0: int, left: bool) returns (str: string)
    ensures str == str0 + Padded(text, size0, left)
  {
    hide Repeat;
    str := str0;
    var size := size0;
    if !left {
      str, size := PadTo(str, |text|, size);
    }
    str := str + text;
    RepeatNone(' ', size - |text|);
    str, size := PadTo(str, |text|, size);
  }

  /** `%c`: the character counts for one column of the width. */
  method EmitChar(str0: string, c: char, width: int, left: bool) returns (str: string)
    ensures str == str0 + Padded([c], width, left)
  {
    str := str0;
    var fieldWidth := width - 1;
    if !left {
      str, fieldWidth := Pad(str, ' ', fieldWidth);
      RepeatNone(' ', fieldWidth);
    }
    hide Repeat;
    str := str + [c];
    str, fieldWidth := Pad(str, ' ', fieldWidth);
  }

  method Ethernet(args: Args, p: int, uppercase: bool) returns (tmp: string)
    ensures tmp == EthernetText(args, p, uppercase, 6)
  {
    hide DigitChar;
    tmp := "";
    for i := 0 to 6
      invariant tmp == EthernetText(args, p, uppercase, i)
    {
      EthernetNext(args, p, uppercase, i);
      hide EthernetText;
      if i != 0 {
        tmp := tmp + [':'];
      }
      tmp := tmp + [DigitChar(args.byte(p + i) / 16, uppercase)];
      tmp := tmp + [DigitChar(args.byte(p + i) % 16, uppercase)];
    }
  }

  lemma EthernetNext(args: Args, p: int, uppercase: bool, n: nat)
    ensures var t, b := EthernetText(args, p, uppercase, n) + (if n > 0 then ":" else ""), args.byte(p + n);
      EthernetText(args, p, uppercase, n + 1) == t + [DigitChar(b / 16, uppercase)] + [DigitChar(b % 16, uppercase)]
  {
    hide DigitChar;
    var t, b := EthernetText(args, p, uppercase, n) + (if n > 0 then ":" else ""), args.byte(p + n);
    var c, d := DigitChar(b / 16, uppercase), DigitChar(b % 16, uppercase);
    assert t + [c] + [d] == t + [c, d];
  }

  method Internet(args: Args, p: int) returns (tmp: string)
    ensures tmp == InternetText(args, p, 4)
  {
    tmp := "";
    for i := 0 to 4
      invariant tmp == InternetText(args, p, i)
    {
      if i != 0 {
        tmp := tmp + ['.'];
      }
      tmp := EmitByte(tmp, args.byte(p + i));
    }
  }

  /** One to three digits, by cases; they are the decimal digits of the byte. */
  method EmitByte(tmp0: string, n0: u8) returns (tmp: string)
    ensures tmp == tmp0 + DigitText(PrintedDigits(n0, 10), false)
  {
    ByteDigits(n0);
    hide PrintedDigits, DigitText;
    tmp := tmp0;
    var n: int := n0;
    if n == 0 {
      tmp := tmp + [LOWER[0]];
    } else {
      if n >= 100 {
        tmp := tmp + [LOWER[n / 100]];
        n := n % 100;
        tmp := tmp + [LOWER[n / 10]];
        n := n % 10;
      } else if n >= 10 {
        tmp := tmp + [LOWER[n / 10]];
        n := n % 10;
      }
      tmp := tmp + [LOWER[n]];
    }
  }

  /** The decimal digits of a number, none for 0. */
  function Decimals(n: nat): string {
    DigitText(Digits(n, 10), false)
  }

  lemma DecimalsStep(n: nat)
    ensures n == 0 ==> Decimals(n) == "" && DigitText(PrintedDigits(n, 10), false) == [LOWER[n]]
    ensures n > 0 ==>
      Decimals(n) == Decimals(n / 10) + [LOWER[n % 10]] && DigitText(PrintedDigits(n, 10), false) == Decimals(n)
  {
    if n > 0 {
      assert Digits(n, 10)[1..] == Digits(n / 10, 10);
    } else {
      assert DigitText([0], false) == [LOWER[0]];
    }
  }

  lemma ByteDigits(n: u8)
    ensures var t := DigitText(PrintedDigits(n, 10), false);
      && (n < 10 ==> t == [LOWER[n]])
      && (10 <= n < 100 ==> t == [LOWER[n / 10], LOWER[n % 10]])
      && (n >= 100 ==> t == [LOWER[n / 100], LOWER[n % 100 / 10], LOWER[n % 100 % 10]])
  {
    hide *;
    ByteQuotients(n);
    DecimalsStep(n);
    DecimalsStep(n / 10);
    DecimalsStep(n / 100);
    DecimalsStep(0);
  }

  lemma ByteQuotients(n: u8)
    ensures n % 100 / 10 == n / 10 % 10 && n % 100 % 10 == n % 10 && n / 10 / 10 == n / 100 && n / 100 / 10 == 0
    ensures n < 100 ==> n / 100 == 0 && n / 10 < 10
    ensures n / 100 < 10 && n / 100 % 10 == n / 100
  {
  }

  /** The length of a string, or the count if that is smaller. */
  method Strnlen(s: string, count0: u32) returns (sc: nat)
    requires '\0' !in s
    ensures sc == if |s| < count0 then |s| else count0
  {
    var count: int := count0;
    sc := 0;
    while At(s, sc) != '\0' && count != 0
      invariant sc <= |s| && count == count0 - sc >= 0
      decreases |s| - sc
    {
      count := count - 1;
      sc := sc + 1;
    }
  }

  /** `%s`: as much of the string as the precision allows, in a field of blanks. */
  method EmitString(str0: string, s: Spec, w: u32, args: Args) returns (str: string)
    requires '\0' !in args.text(w)
    ensures str == str0 + Padded(StringText(args, w, s.precision), s.width, s.flags.left)
  {
    hide Padded;
    var text := if w == 0 then "<NULL>" else args.text(w);
    var len := Strnlen(text, s.precision % 0x1_0000_0000);
    assert text[..len] == StringText(args, w, s.precision);
    str := EmitPadded(str0, text[..len], s.width, s.flags.left);
  }

  method EmitField(str0: string, s: Spec, c: char, args: Args) returns (str: string)
    requires s.precision >= -1 && args.Valid()
    ensures str == str0 + FieldText(s, c, args)
  {
    hide Padded, StringText, EthernetText, InternetText, NumberText, ToS32;
    var w := args.word(s.used);
    if c == 'c' {
      str := EmitChar(str0, (w % 0x100) as char, s.width, s.flags.left);
    } else if c == 's' {
      str := EmitString(str0, s, w, args);
    } else if c == 'p' {
      str := EmitPointer(str0, s, w);
    } else if c == 'A' || c == 'a' {
      var tmp;
      if s.qualifier == 'l' {
        tmp := Ethernet(args, w, c == 'A');
      } else {
        tmp := Internet(args, w);
      }
      str := EmitPadded(str0, tmp, s.width, s.flags.left);
    } else if IsInteger(c) {
      str := EmitInteger(str0, s, c, w);
    } else {
      str := str0;
      if c != '%' {
        str := str + ['%'];
      }
      if c != '\0' {
        str := str + [c];
      }
    }
  }

  method EmitPointer(str0: string, s: Spec, w: u32) returns (str: string)
    ensures str == str0 + PointerText(s, w)
  {
    hide NumberText, ToS32;
    var fieldWidth, flags := s.width, s.flags;
    if fieldWidth == -1 {
      fieldWidth := 8;
      flags := flags.(zeropad := true);
    }
    var r := Number(str0, ToS32(w), 16, fieldWidth, s.precision, flags);
    str := r.value;
  }

  method EmitInteger(str0: string, s: Spec, c: char, w: u32) returns (str: string)
    requires IsInteger(c)
    ensures str == str0 + IntegerText(s, c, w)
  {
    hide NumberText, ToS32;
    var base, flags := 10, s.flags;
    if c == 'o' {
      base := 8;
    } else if c == 'X' {
      flags := flags.(uppercase := true);
      base := 16;
    } else if c == 'x' {
      base := 16;
    } else if c == 'd' || c == 'i' {
      flags := flags.(sign := true);
    }
    var r := Number(str0, ToS32(w), base, s.width, s.precision, flags);
    str := r.value;
  }

  /** Writes the whole output and returns its length, for every format and argument list. */
  method VSprintf(fmt: string, args: Args) returns (str: string, len: nat)
    requires '\0' !in fmt && args.Valid()
    ensures str == Output(fmt, args, 0, 0) && len == |str|
  {
    hide *;
    str := "";
    var pos: nat, used: nat := 0, 0;
    while pos < |fmt|
      invariant pos <= |fmt| && str + Output(fmt, args, pos, used) == Output(fmt, args, 0, 0)
      decreases |fmt| - pos
    {
      OutputStep(fmt, args, pos, used);
      if fmt[pos] != '%' {
        str := str + [fmt[pos]];
      } else {
        var s := ReadDirective(fmt, args, pos, used);
        var c := At(fmt, s.at);
        ghost var before := str;
        str := EmitField(str, s, c, args);
        ghost var rest := Output(fmt, args, After(fmt, s), UsedAfter(s, c));
        assert before + (FieldText(s, c, args) + rest) == str + rest;
        used := UsedAfter(s, c);
        // The NUL is not stepped over.
        pos := if c == '\0' then s.at - 1 else s.at;
      }
      pos := pos + 1;
    }
    OutputEnd(fmt, args, pos, used);
    len := |str|;
  }

  lemma OutputStep(fmt: string, args: Args, i: nat, used: nat)
    requires i < |fmt| && '\0' !in fmt
    ensures fmt[i] != '%' ==> Output(fmt, args, i, used) == [fmt[i]] + Output(fmt, args, i + 1, used)
    ensures fmt[i] == '%' ==> (
      var s := Parse(fmt, args, i, used);
      var c := At(fmt, s.at);
      && i < s.at <= |fmt| && s.precision >= -1 && (c == '\0' <==> s.at == |fmt|)
      && i < After(fmt, s) <= |fmt| && After(fmt, s) == (if c == '\0' then s.at - 1 else s.at) + 1
      && Output(fmt, args, i, used) == FieldText(s, c, args) + Output(fmt, args, After(fmt, s), UsedAfter(s, c)))
  {
    hide Parse, FieldText, UsedAfter;
  }

  lemma OutputEnd(fmt: string, args: Args, i: nat, used: nat)
    requires i == |fmt|
    ensures Output(fmt, args, i, used) == ""
  {
  }

  // ------------------------------------------------------------------ what follows

  /** A stretch without '%' is copied unchanged, whatever comes before and behind it. */
  lemma {:induction false} LiteralCopied(fmt: string, args: Args, i: nat, j: nat, used: nat)
    requires i <= j <= |fmt| && '%' !in fmt[i..j]
    ensures Output(fmt, args, i, used) == fmt[i..j] + Output(fmt, args, j, used)
    decreases j - i
  {
    hide *;
    if i < j {
      LiteralFirst(fmt, args, i, j, used);
      LiteralCopied(fmt, args, i + 1, j, used);
      var rest := Output(fmt, args, j, used);
      assert [fmt[i]] + (fmt[i + 1..j] + rest) == ([fmt[i]] + fmt[i + 1..j]) + rest;
    } else {
      assert fmt[i..j] == "";
    }
  }

  lemma LiteralFirst(fmt: string, args: Args, i: nat, j: nat, used: nat)
    requires i < j <= |fmt| && '%' !in fmt[i..j]
    ensures fmt[i..j] == [fmt[i]] + fmt[i + 1..j] && '%' !in fmt[i + 1..j]
    ensures Output(fmt, args, i, used) == [fmt[i]] + Output(fmt, args, i + 1, used)
  {
    hide Parse, FieldText, UsedAfter, After;
    assert fmt[i..j][0] == fmt[i];
    assert fmt[i..j][1..] == fmt[i + 1..j];
  }

  /** A directive that the end of the format cuts off prints a lone '%' and ends the run. */
  lemma CutOff(fmt: string, args: Args, i: nat, used: nat)
    requires '\0' !in fmt && i < |fmt| && fmt[i] == '%' && Parse(fmt, args, i, used).at == |fmt|
    ensures Output(fmt, args, i, used) == "%"
  {
    OutputStep(fmt, args, i, used);
    OutputEnd(fmt, args, |fmt|, used);
    hide Parse, Output;
    assert "%" + "" == "%";
  }

  /** Every known conversion fills its width. */
  lemma {:induction false} FieldFillsWidth(s: Spec, c: char, args: Args)
    requires s.precision >= -1 && TakesArgument(c)
    ensures |FieldText(s, c, args)| >= s.width
  {
    var w := args.word(s.used);
    if c == 'p' {
      PointerFillsWidth(s, w);
    } else if IsInteger(c) {
      IntegerFillsWidth(s, c, w);
    }
    hide StringText, EthernetText, InternetText, PointerText, IntegerText;
  }

  lemma PointerFillsWidth(s: Spec, w: u32)
    ensures |PointerText(s, w)| >= s.width
  {
    NumberMeaning(ToS32(w), 16, 8, s.precision, s.flags.(zeropad := true));
    NumberMeaning(ToS32(w), 16, s.width, s.precision, s.flags);
    hide NumberText, LayoutOf, NumberDigits, ToS32, Value, Magnitude;
  }

  lemma IntegerFillsWidth(s: Spec, c: char, w: u32)
    requires IsInteger(c)
    ensures |IntegerText(s, c, w)| >= s.width
  {
    var base := if c == 'o' then 8 else if c == 'x' || c == 'X' then 16 else 10;
    var f :=
      if c == 'X' then s.flags.(uppercase := true)
      else if c == 'd' || c == 'i' then s.flags.(sign := true)
      else s.flags;
    NumberMeaning(ToS32(w), base, s.width, s.precision, f);
    hide NumberText, LayoutOf, NumberDigits, ToS32, Value, Magnitude;
  }

  lemma DecimalField(s: Spec, c: char, args: Args)
    requires s.precision >= -1 && (c == 'd' || c == 'i')
    ensures FieldText(s, c, args) == NumberText(ToS32(args.word(s.used)), 10, s.width, s.precision,
      s.flags.(sign := true))
  {
    hide NumberText, ToS32;
  }

  /** Whatever stands between '%' and 'd', the field reads back as the argument. */
  lemma {:induction false} DecimalFieldReadsBack(s: Spec, c: char, args: Args)
    requires s.precision >= -1 && (c == 'd' || c == 'i')
    ensures ReadField(FieldText(s, c, args)) == ToS32(args.word(s.used))
  {
    hide *;
    DecimalField(s, c, args);
    PrintedReadsBack(ToS32(args.word(s.used)), s.width, s.precision, s.flags.(sign := true));
  }

  /** The lengths of what is printed from position i on, character by character and field
      by field. */
  function FieldLengths(fmt: string, args: Args, i: nat, used: nat): seq<nat>
    requires i <= |fmt|
    decreases |fmt| - i
  {
    if i == |fmt| then []
    else if fmt[i] != '%' then [1] + FieldLengths(fmt, args, i + 1, used)
    else
      var s := Parse(fmt, args, i, used);
      [|FieldText(s, At(fmt, s.at), args)|] + FieldLengths(fmt, args, After(fmt, s), UsedAfter(s, At(fmt, s.at)))
  }

  function Sum(lengths: seq<nat>): nat {
    if lengths == [] then 0 else lengths[0] + Sum(lengths[1..])
  }

  /** The return value is the sum of the field lengths. */
  lemma {:induction false} LengthIsSum(fmt: string, args: Args, i: nat, used: nat)
    requires i <= |fmt|
    ensures |Output(fmt, args, i, used)| == Sum(FieldLengths(fmt, args, i, used))
    decreases |fmt| - i
  {
    hide Parse, FieldText, UsedAfter;
    if i < |fmt| {
      if fmt[i] != '%' {
        LengthIsSum(fmt, args, i + 1, used);
      } else {
        var s := Parse(fmt, args, i, used);
        LengthIsSum(fmt, args, After(fmt, s), UsedAfter(s, At(fmt, s.at)));
      }
    }
  }
}
