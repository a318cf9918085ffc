/** What the directives of a format string print, told by reading the text: fields are blanks,
    a sign, a prefix, digits and blanks, and digits are read one character at a time. */
module PrintedFields {
  import opened MachineInts
  import opened NumberFormat
  import opened FormatString

  // ------------------------------------------------------------------- number fields

  datatype Parts = Parts(front: string, sign: string, prefix: string, digits: string, back: string) {
    function Text(): string {
      front + sign + prefix + digits + back
    }

    /** Blanks fill the width on the side the flags say; zeros do, behind sign and prefix, with
        the zero flag alone; and there are no other leading zeros than the precision asks for. */
    predicate Fills(width: int, precision: int, f: Flags) {
      && Blank(front) && Blank(back) && (f.left || f.zeropad ==> front == "") && (!f.left ==> back == "")
      && |Text()| >= width && |digits| >= precision
      && (front != "" || back != "" ==> |Text()| == width)
      && (|digits| > precision && |digits| > 1 && digits[0] == '0' ==>
            f.zeropad && !f.left && |Text()| == width)
    }
  }

  /** The field of a number: its parts, with what the digits are worth. */
  lemma {:induction false} NumberField(num: s32, base: int, width: int, precision: int, f: Flags) returns (p: Parts)
    requires 2 <= base <= 36
    ensures NumberText(num, base, width, precision, f) == p.Text() && p.Fills(width, precision, f)
    ensures p.sign == SignText(num, f) && p.prefix == PrefixText(base, f)
    ensures Numeral(p.digits, base, f.uppercase) && Worth(p.digits, base) == Magnitude(num, f)
  {
    hide *;
    var l, ds := LayoutOf(num, base, width, precision, f), NumberDigits(num, base, f);
    var pad := if f.zeropad && !f.left then l.room else 0;
    var digits := Repeat('0', pad) + (Repeat('0', l.zeros) + l.digits);
    p := Parts(if f.left || f.zeropad then "" else Repeat(' ', l.room), l.sign, l.prefix, digits,
      if f.left then Repeat(' ', l.room) else "");
    LayoutIs(num, base, width, precision, f);
    DigitsWorth(num, base, f);
    TextReads(ds, base, f.uppercase);
    ZerosRead(l.zeros, l.digits, base, f.uppercase);
    ZerosRead(pad, Repeat('0', l.zeros) + l.digits, base, f.uppercase);
    NumeralIs(digits, base, f.uppercase);
    PartsText(l, f, p, pad);
    TextIs(num, base, width, precision, f);
    PartsFill(l, ds, p, pad, width, precision, f);
  }

  lemma LayoutIs(num: s32, base: int, width: int, precision: int, f: Flags)
    requires 2 <= base <= 36
    ensures var l, ds := LayoutOf(num, base, width, precision, f), NumberDigits(num, base, f);
      && l.sign == SignText(num, f) && l.prefix == PrefixText(base, f) && l.digits == DigitText(ds, f.uppercase)
      && ds != [] && |l.digits| == |ds| && l.zeros + |ds| == Max(precision, |ds|) >= |ds|
      && l.room == width - |l.sign| - |l.prefix| - l.zeros - |ds|
      && l.zeros + |ds| == (if precision >= |ds| then precision else |ds|)
  {
    hide NumberDigits, DigitText, SignText, PrefixText;
  }

  lemma PartsText(l: Layout, f: Flags, p: Parts, pad: int)
    requires pad == (if f.zeropad && !f.left then l.room else 0)
    requires p == Parts(if f.left || f.zeropad then "" else Repeat(' ', l.room), l.sign, l.prefix,
      Repeat('0', pad) + (Repeat('0', l.zeros) + l.digits), if f.left then Repeat(' ', l.room) else "")
    ensures l.Text(f) == p.Text()
  {
    RepeatNone('0', 0);
    hide Repeat;
    var z, d := Repeat('0', l.zeros), l.digits;
    var q := if f.zeropad && !f.left then Repeat('0', l.room) else "";
    assert q == Repeat('0', pad);
    assert p.front + l.sign + l.prefix + q + z + d + p.back == p.front + l.sign + l.prefix + (q + (z + d)) + p.back;
  }

  lemma PartsFill(l: Layout, ds: seq<nat>, p: Parts, pad: int, width: int, precision: int, f: Flags)
    requires pad == (if f.zeropad && !f.left then l.room else 0) && |l.digits| == |ds| > 0
    requires l.zeros + |ds| == (if precision >= |ds| then precision else |ds|)
    requires l.room == width - |l.sign| - |l.prefix| - l.zeros - |ds|
    requires l.digits[0] == '0' <==> ds[|ds| - 1] == 0
    requires |ds| > 1 ==> ds[|ds| - 1] != 0
    requires p == Parts(if f.left || f.zeropad then "" else Repeat(' ', l.room), l.sign, l.prefix,
      Repeat('0', pad) + (Repeat('0', l.zeros) + l.digits), if f.left then Repeat(' ', l.room) else "")
    ensures p.Fills(width, precision, f)
  {
    RepeatNone('0', pad);
    RepeatNone('0', l.zeros);
    hide Repeat;
    assert p.digits != "";
    assert |p.digits| == (if pad > 0 then pad else 0) + l.zeros + |ds|;
    assert |p.Text()| == |p.front| + |p.sign| + |p.prefix| + |p.digits| + |p.back|;
  }

  // ------------------------------------------------------------- what a directive reads

  /** How often c stands in the text. */
  function Count(t: string, c: char): nat {
    if t == "" then 0 else Count(t[..|t| - 1], c) + (if t[|t| - 1] == c then 1 else 0)
  }

  lemma {:induction false} CountAppend(a: string, b: string, c: char)
    ensures Count(a + b, c) == Count(a, c) + Count(b, c)
  {
    if b == "" {
      assert a + b == a;
    } else {
      CountAppend(a, b[..|b| - 1], c);
      assert (a + b)[..|a + b| - 1] == a + b[..|b| - 1];
    }
  }

  lemma {:induction false} CountNone(t: string, c: char)
    requires c !in t
    ensures Count(t, c) == 0
  {
    if t != "" {
      CountNone(t[..|t| - 1], c);
    }
  }

  /** A decimal text is worth what the formatter's own reading of it says. */
  lemma {:induction false} SpelledWorth(t: string)
    requires forall k :: 0 <= k < |t| ==> IsDecimal(t[k])
    ensures Spelled(t, 0) == Worth(t, 10)
  {
    if t != "" {
      SpelledWorth(t[..|t| - 1]);
      SpelledSnoc(t[..|t| - 1], t[|t| - 1], 0);
      assert t == t[..|t| - 1] + [t[|t| - 1]];
    }
  }

  /** A flag is set exactly if its character is in the text; signed numbers and upper case are
      not asked for by flags. */
  predicate FlagsOf(f: Flags, t: string) {
    && (f.left <==> '-' in t) && (f.plus <==> '+' in t) && (f.space <==> ' ' in t)
    && (f.hexPrep <==> '#' in t) && (f.zeropad <==> '0' in t) && !f.sign && !f.uppercase
  }

  /** A run of flag characters. */
  predicate FlagRun(t: string) {
    forall k :: 0 <= k < |t| ==> t[k] in "-+ #0"
  }

  lemma FlagChars(c: char)
    ensures IsFlag(c) <==> c in "-+ #0"
  {
  }

  lemma FlagAdded(f: Flags, t: string, c: char)
    requires FlagsOf(f, t) && FlagRun(t) && IsFlag(c)
    ensures FlagsOf(WithFlag(f, c), t + [c]) && FlagRun(t + [c])
  {
    FlagChars(c);
  }

  lemma {:induction false} FlagsRead(fmt: string, s: Spec, i: nat)
    requires i <= s.at <= |fmt| && FlagsOf(s.flags, fmt[i..s.at]) && FlagRun(fmt[i..s.at])
    ensures var r := ParseFlags(fmt, s);
      && s.at <= r.at <= |fmt| && FlagsOf(r.flags, fmt[i..r.at]) && FlagRun(fmt[i..r.at])
      && (r.at < |fmt| ==> fmt[r.at] !in "-+ #0") && r == s.(flags := r.flags, at := r.at)
    decreases |fmt| - s.at
  {
    FlagChars(At(fmt, s.at));
    hide FlagsOf, FlagRun, WithFlag, IsFlag;
    if IsFlag(At(fmt, s.at)) {
      assert fmt[i..s.at + 1] == fmt[i..s.at] + [fmt[s.at]];
      FlagAdded(s.flags, fmt[i..s.at], fmt[s.at]);
      FlagsRead(fmt, s.(flags := WithFlag(s.flags, At(fmt, s.at)), at := s.at + 1), i);
    }
  }

  /** A whole run of decimal digits stands from a to b. */
  predicate DigitRun(fmt: string, a: nat, b: nat) {
    && a < b <= |fmt| && (forall k :: a <= k < b ==> '0' <= fmt[k] <= '9')
    && (b < |fmt| ==> !('0' <= fmt[b] <= '9'))
  }

  /** From a to b stands a width: digits, `*` for an argument, whose sign sets a flag, or
      nothing. */
  predicate WidthRead(fmt: string, args: Args, a: nat, b: nat, used: nat, width: s32, f: Flags, g: Flags) {
    if a < |fmt| && '0' <= fmt[a] <= '9' then DigitRun(fmt, a, b) && width == ToS32(Worth(fmt[a..b], 10)) && g == f
    else if a < |fmt| && fmt[a] == '*' then
      var w := ToS32(args.word(used));
      b == a + 1 && width == (if w < 0 then ToS32(-(w as int)) else w) && g == if w < 0 then f.(left := true) else f
    else b == a && width == -1 && g == f
  }

  /** From b to c stands a precision: a dot and digits, a dot and `*`, a dot alone for 0, or
      nothing; a negative one counts as 0. */
  predicate PrecisionRead(fmt: string, args: Args, b: nat, c: nat, used: nat, precision: s32) {
    if b < |fmt| && fmt[b] == '.' then
      if b + 1 < |fmt| && '0' <= fmt[b + 1] <= '9' then
        DigitRun(fmt, b + 1, c) && precision == Max(ToS32(Worth(fmt[b + 1..c], 10)), 0)
      else if b + 1 < |fmt| && fmt[b + 1] == '*' then c == b + 2 && precision == Max(ToS32(args.word(used)), 0)
      else c == b + 1 && precision == 0
    else c == b && precision == -1
  }

  /** From c to e stands a qualifier, or nothing. */
  predicate QualifierRead(fmt: string, c: nat, e: nat, qualifier: char) {
    if c < |fmt| && (fmt[c] == 'l' || fmt[c] == 'L') then e == c + 1 && qualifier == fmt[c]
    else e == c && qualifier == '\0'
  }

  lemma NumberReads(fmt: string, i: nat)
    requires i < |fmt| && IsDecimal(fmt[i])
    ensures var j := DigitsEnd(fmt, i);
      DigitRun(fmt, i, j) && NumberAt(fmt, i) == ToS32(Worth(fmt[i..j], 10)) && Count(fmt[i..j], '*') == 0
  {
    var j := DigitsEnd(fmt, i);
    hide Spelled, Worth, Count, ToS32;
    SpelledWorth(fmt[i..j]);
    CountNone(fmt[i..j], '*');
  }

  lemma WidthReads(fmt: string, args: Args, s: Spec)
    requires s.at <= |fmt|
    ensures var r := ParseWidth(fmt, args, s);
      && s.at <= r.at <= |fmt| && WidthRead(fmt, args, s.at, r.at, s.used, r.width, s.flags, r.flags)
      && r.used == s.used + Count(fmt[s.at..r.at], '*')
  {
    var r := ParseWidth(fmt, args, s);
    if IsDecimal(At(fmt, s.at)) {
      NumberReads(fmt, s.at);
    } else if At(fmt, s.at) == '*' {
      assert fmt[s.at..r.at] == ['*'];
      assert Count(['*'], '*') == 1;
    }
  }

  lemma PrecisionReads(fmt: string, args: Args, s: Spec)
    requires s.at <= |fmt|
    ensures var r := ParsePrecision(fmt, args, s);
      && s.at <= r.at <= |fmt| && PrecisionRead(fmt, args, s.at, r.at, s.used, r.precision)
      && r.used == s.used + Count(fmt[s.at..r.at], '*') && r.flags == s.flags && r.width == s.width
  {
    var r := ParsePrecision(fmt, args, s);
    if At(fmt, s.at) == '.' {
      assert fmt[s.at..r.at] == ['.'] + fmt[s.at + 1..r.at];
      assert Count(['.'], '*') == 0;
      CountAppend(['.'], fmt[s.at + 1..r.at], '*');
      if IsDecimal(At(fmt, s.at + 1)) {
        NumberReads(fmt, s.at + 1);
      } else if At(fmt, s.at + 1) == '*' {
        assert fmt[s.at + 1..r.at] == ['*'];
        assert Count(['*'], '*') == 1;
      }
    }
  }

  lemma QualifierReads(fmt: string, s: Spec)
    requires s.at <= |fmt|
    ensures var r := ParseQualifier(fmt, s);
      && s.at <= r.at <= |fmt| && QualifierRead(fmt, s.at, r.at, r.qualifier)
      && Count(fmt[s.at..r.at], '*') == 0 && r == s.(qualifier := r.qualifier, at := r.at)
  {
    var r := ParseQualifier(fmt, s);
    CountNone(fmt[s.at..r.at], '*');
  }

  /** A directive is its '%', a run of flags, a width, a precision and a qualifier, one behind the
      other, and has used one argument for each `*` in it. */
  lemma DirectiveReads(fmt: string, args: Args, i: nat, used: nat) returns (a: nat, b: nat, c: nat, f: Flags)
    requires i < |fmt| && fmt[i] == '%'
    ensures var s := Parse(fmt, args, i, used);
      && i < a <= b <= c <= s.at <= |fmt|
      && FlagRun(fmt[i + 1..a]) && (a < |fmt| ==> fmt[a] !in "-+ #0") && FlagsOf(f, fmt[i + 1..a])
      && WidthRead(fmt, args, a, b, used, s.width, f, s.flags)
      && PrecisionRead(fmt, args, b, c, used + Count(fmt[a..b], '*'), s.precision)
      && QualifierRead(fmt, c, s.at, s.qualifier)
      && s.used == used + Count(fmt[i..s.at], '*')
  {
    hide *;
    var s0 := Spec(PLAIN, -1, -1, '\0', i + 1, used);
    assert fmt[i + 1..i + 1] == "";
    NoFlags();
    FlagsRead(fmt, s0, i + 1);
    var s1 := ParseFlags(fmt, s0);
    WidthReads(fmt, args, s1);
    var s2 := ParseWidth(fmt, args, s1);
    PrecisionReads(fmt, args, s2);
    var s3 := ParsePrecision(fmt, args, s2);
    QualifierReads(fmt, s3);
    a, b, c, f := s1.at, s2.at, s3.at, s1.flags;
    ParseIs(fmt, args, i, used);
    var s := ParseQualifier(fmt, s3);
    NoStars(fmt[i..i + 1]);
    NoStars(fmt[i + 1..a]);
    CountParts(fmt, i, i + 1, a, '*');
    CountParts(fmt, i, a, b, '*');
    CountParts(fmt, i, b, c, '*');
    CountParts(fmt, i, c, s.at, '*');
  }

  lemma CountParts(t: string, a: nat, b: nat, c: nat, x: char)
    requires a <= b <= c <= |t|
    ensures Count(t[a..c], x) == Count(t[a..b], x) + Count(t[b..c], x)
  {
    CountAppend(t[a..b], t[b..c], x);
    assert t[a..c] == t[a..b] + t[b..c];
  }

  lemma NoFlags()
    ensures FlagsOf(PLAIN, "") && FlagRun("")
  {
  }

  lemma NoStars(t: string)
    requires FlagRun(t) || (|t| == 1 && t[0] == '%')
    ensures Count(t, '*') == 0
  {
    CountNone(t, '*');
  }

  lemma ParseIs(fmt: string, args: Args, i: nat, used: nat)
    requires i < |fmt|
    ensures var s1 := ParseFlags(fmt, Spec(PLAIN, -1, -1, '\0', i + 1, used));
      Parse(fmt, args, i, used) == ParseQualifier(fmt, ParsePrecision(fmt, args, ParseWidth(fmt, args, s1)))
  {
    hide ParseFlags, ParseWidth, ParsePrecision, ParseQualifier;
  }

  lemma ParsedFlags(fmt: string, args: Args, i: nat, used: nat)
    requires i < |fmt| && fmt[i] == '%'
    ensures var s := Parse(fmt, args, i, used); s.precision >= -1 && !s.flags.sign && !s.flags.uppercase
  {
    var a, b, c, f := DirectiveReads(fmt, args, i, used);
    hide Parse, Count, Worth, ToS32, DigitRun;
  }

  // -------------------------------------------------------------- what a directive prints

  function BaseOf(c: char): nat {
    if c == 'x' || c == 'X' || c == 'p' then 16 else if c == 'o' then 8 else 10
  }

  /** The sign in front of a signed number. */
  function SignOf(v: s32, f: Flags): string {
    if v < 0 then "-" else if f.plus then "+" else if f.space then " " else ""
  }

  /** What `#` puts in front of the digits. */
  function PrefixOf(base: nat, f: Flags): string {
    if f.hexPrep && base == 16 then "0x" else if f.hexPrep && base == 8 then "0" else ""
  }

  /** An integer conversion prints blanks, sign, prefix, digits and blanks as flags, width and
      precision say.  The digits, in lower case but for `X`, are worth the argument in base 16
      for `x`, `X` and `p`, 8 for `o` and 10 else; for `d` and `i` they are worth its size as a
      signed number, whose sign stands in front.  A pointer without a width gets eight digits. */
  lemma IntegerField(fmt: string, args: Args, i: nat, used: nat) returns (p: Parts)
    requires i < |fmt| && fmt[i] == '%' && At(fmt, Parse(fmt, args, i, used).at) in "diuoxXp"
    ensures var s := Parse(fmt, args, i, used);
      var c, w := At(fmt, s.at), args.word(s.used);
      var v, signed, bare := ToS32(w), c == 'd' || c == 'i', c == 'p' && s.width == -1;
      && s.precision >= -1 && FieldText(s, c, args) == p.Text()
      && (if bare then p.Fills(8, s.precision, s.flags.(zeropad := true))
          else p.Fills(s.width, s.precision, s.flags))
      && p.sign == (if signed then SignOf(v, s.flags) else "") && p.prefix == PrefixOf(BaseOf(c), s.flags)
      && Numeral(p.digits, BaseOf(c), c == 'X')
      && Worth(p.digits, BaseOf(c)) == (if signed && v < 0 then -(v as int) else w)
  {
    var s := Parse(fmt, args, i, used);
    var c, w := At(fmt, s.at), args.word(s.used);
    ParsedFlags(fmt, args, i, used);
    hide *;
    IntegerIs(s, c, args);
    var f := AskedFlags(s, c);
    var width := if c == 'p' && s.width == -1 then 8 else s.width;
    p := NumberField(ToS32(w), BaseOf(c), width, s.precision, f);
    NumberParts(w, s, c, f);
    FillsSame(p, width, s.precision, f, if c == 'p' && s.width == -1 then s.flags.(zeropad := true) else s.flags);
  }

  function AskedFlags(s: Spec, c: char): Flags {
    if c == 'X' then s.flags.(uppercase := true)
    else if c == 'd' || c == 'i' then s.flags.(sign := true)
    else if c == 'p' && s.width == -1 then s.flags.(zeropad := true)
    else s.flags
  }

  lemma IntegerIs(s: Spec, c: char, args: Args)
    requires s.precision >= -1 && c in "diuoxXp"
    ensures 2 <= BaseOf(c) <= 36
    ensures FieldText(s, c, args) == NumberText(ToS32(args.word(s.used)), BaseOf(c),
      if c == 'p' && s.width == -1 then 8 else s.width, s.precision, AskedFlags(s, c))
  {
    hide NumberText, ToS32;
  }

  lemma NumberParts(w: u32, s: Spec, c: char, f: Flags)
    requires f == AskedFlags(s, c) && !s.flags.sign && !s.flags.uppercase
    ensures var v, signed := ToS32(w), c == 'd' || c == 'i';
      && SignText(v, f) == (if signed then SignOf(v, s.flags) else "")
      && PrefixText(BaseOf(c), f) == PrefixOf(BaseOf(c), s.flags) && f.uppercase == (c == 'X')
      && Magnitude(v, f) == (if signed && v < 0 then -(v as int) else w)
      && f.left == s.flags.left && (f.zeropad <==> s.flags.zeropad || (c == 'p' && s.width == -1))
  {
  }

  lemma FillsSame(p: Parts, width: int, precision: int, f: Flags, g: Flags)
    requires p.Fills(width, precision, f) && f.left == g.left && f.zeropad == g.zeropad
    ensures p.Fills(width, precision, g)
  {
  }

  /** Text in a field of blanks: those in front or behind as the flag says, and no more than the
      width asks for. */
  predicate InField(t: string, x: string, width: int, left: bool) {
    && |t| == Max(width, |x|)
    && (if left then x <= t && Blank(t[|x|..]) else t[|t| - |x|..] == x && Blank(t[..|t| - |x|]))
  }

  lemma PaddedField(x: string, width: int, left: bool)
    ensures InField(Padded(x, width, left), x, width, left)
  {
    var t := Padded(x, width, left);
    assert left ==> t[..|x|] == x;
  }

  /** A character or string in its field; a string is cut to the precision, and without one only
      at 2^32 - 1 characters. */
  lemma TextField(s: Spec, c: char, args: Args) returns (x: string)
    requires s.precision >= -1 && (c == 'c' || c == 's')
    ensures InField(FieldText(s, c, args), x, s.width, s.flags.left)
    ensures c == 'c' ==> x == [(args.word(s.used) % 0x100) as char]
    ensures c == 's' ==>
      var src := if args.word(s.used) == 0 then "<NULL>" else args.text(args.word(s.used));
      x <= src && |x| == if 0 <= s.precision < |src| then s.precision
                         else if s.precision < 0 && |src| > 0xFFFF_FFFF then 0xFFFF_FFFF else |src|
  {
    hide Padded, InField;
    var w := args.word(s.used);
    x := if c == 'c' then [(w % 0x100) as char] else StringText(args, w, s.precision);
    PaddedField(x, s.width, s.flags.left);
  }

  /** Six hexadecimal pairs, colons in between. */
  predicate IsEthernet(x: string, args: Args, p: int, upper: bool) {
    |x| == 17 && forall k :: 0 <= k < 6 ==> IsPair(x, args, p, k, upper)
  }

  /** The k-th pair is the k-th byte, and a colon follows unless it is the last. */
  predicate IsPair(x: string, args: Args, p: int, k: nat, upper: bool)
    requires k < 6 && |x| == 17
  {
    && Numeral(x[3 * k..3 * k + 2], 16, upper) && Worth(x[3 * k..3 * k + 2], 16) == args.byte(p + k)
    && (k < 5 ==> x[3 * k + 2] == ':')
  }

  lemma {:induction false} PairsAt(args: Args, p: int, upper: bool, n: nat)
    ensures var t := EthernetText(args, p, upper, n);
      && |t| == (if n == 0 then 0 else 3 * n - 1)
      && forall k :: 0 <= k < n ==>
           var b := args.byte(p + k);
           t[3 * k..3 * k + 2] == [DigitChar(b / 16, upper), DigitChar(b % 16, upper)]
           && (k < n - 1 ==> t[3 * k + 2] == ':')
  {
    hide DigitChar;
    if n > 0 {
      PairsAt(args, p, upper, n - 1);
      var t, u := EthernetText(args, p, upper, n), EthernetText(args, p, upper, n - 1);
      forall k | 0 <= k < n - 1
        ensures t[3 * k..3 * k + 2] == u[3 * k..3 * k + 2]
      {
      }
    }
  }

  lemma PairReads(b: u8, upper: bool)
    ensures var d := [DigitChar(b / 16, upper), DigitChar(b % 16, upper)]; Numeral(d, 16, upper) && Worth(d, 16) == b
  {
    CharReads(b / 16, upper);
    CharReads(b % 16, upper);
    var c, d := DigitChar(b / 16, upper), DigitChar(b % 16, upper);
    hide DigitChar, DigitOf, Worth;
    WorthNothing(16);
    WorthSnoc("", c, 16);
    WorthSnoc([c], d, 16);
    assert "" + [c] == [c] && [c] + [d] == [c, d];
  }

  lemma EthernetReads(args: Args, p: int, upper: bool)
    ensures IsEthernet(EthernetText(args, p, upper, 6), args, p, upper)
  {
    PairsAt(args, p, upper, 6);
    hide EthernetText, Worth, Numeral, DigitChar;
    var t := EthernetText(args, p, upper, 6);
    forall k | 0 <= k < 6
      ensures IsPair(t, args, p, k, upper)
    {
      PairReads(args.byte(p + k), upper);
    }
  }

  /** A decimal number without leading zeros. */
  predicate IsDecimalOf(d: string, b: nat) {
    Numeral(d, 10, false) && Worth(d, 10) == b && (|d| > 1 ==> d[0] != '0')
  }

  /** Four decimal bytes, dots in between. */
  ghost predicate IsInternet(x: string, args: Args, p: int) {
    exists d0, d1, d2, d3 ::
      && x == d0 + "." + d1 + "." + d2 + "." + d3
      && IsDecimalOf(d0, args.byte(p)) && IsDecimalOf(d1, args.byte(p + 1))
      && IsDecimalOf(d2, args.byte(p + 2)) && IsDecimalOf(d3, args.byte(p + 3))
  }

  lemma ByteReads(b: u8)
    ensures IsDecimalOf(DigitText(PrintedDigits(b, 10), false), b)
  {
    hide *;
    var ds := PrintedDigits(b, 10);
    PrintedWorth(b, 10);
    TextReads(ds, 10, false);
    NumeralIs(DigitText(ds, false), 10, false);
    DecimalMade(DigitText(ds, false), b, ds[|ds| - 1]);
  }

  lemma DecimalMade(t: string, b: nat, last: nat)
    requires Numeral(t, 10, false) && Worth(t, 10) == b && (t[0] == '0' <==> last == 0) && (|t| > 1 ==> last != 0)
    ensures IsDecimalOf(t, b)
  {
  }

  lemma InternetReads(args: Args, p: int)
    ensures IsInternet(InternetText(args, p, 4), args, p)
  {
    var d0, d1 := DigitText(PrintedDigits(args.byte(p), 10), false),
      DigitText(PrintedDigits(args.byte(p + 1), 10), false);
    var d2, d3 := DigitText(PrintedDigits(args.byte(p + 2), 10), false),
      DigitText(PrintedDigits(args.byte(p + 3), 10), false);
    InternetIs(args, p, d0, d1, d2, d3);
    hide *;
    ByteReads(args.byte(p));
    ByteReads(args.byte(p + 1));
    ByteReads(args.byte(p + 2));
    ByteReads(args.byte(p + 3));
    InternetMade(InternetText(args, p, 4), args, p, d0, d1, d2, d3);
  }

  lemma InternetMade(x: string, args: Args, p: int, d0: string, d1: string, d2: string, d3: string)
    requires x == d0 + "." + d1 + "." + d2 + "." + d3
    requires IsDecimalOf(d0, args.byte(p)) && IsDecimalOf(d1, args.byte(p + 1))
    requires IsDecimalOf(d2, args.byte(p + 2)) && IsDecimalOf(d3, args.byte(p + 3))
    ensures IsInternet(x, args, p)
  {
  }

  lemma InternetIs(args: Args, p: int, d0: string, d1: string, d2: string, d3: string)
    requires d0 == DigitText(PrintedDigits(args.byte(p), 10), false)
    requires d1 == DigitText(PrintedDigits(args.byte(p + 1), 10), false)
    requires d2 == DigitText(PrintedDigits(args.byte(p + 2), 10), false)
    requires d3 == DigitText(PrintedDigits(args.byte(p + 3), 10), false)
    ensures InternetText(args, p, 4) == d0 + "." + d1 + "." + d2 + "." + d3
  {
    hide DigitText, PrintedDigits;
    InternetNext(args, p, 0);
    InternetNext(args, p, 1);
    InternetNext(args, p, 2);
    InternetNext(args, p, 3);
  }

  lemma InternetNext(args: Args, p: int, n: nat)
    ensures InternetText(args, p, 0) == ""
    ensures InternetText(args, p, n + 1) == InternetText(args, p, n) + (if n > 0 then "." else "")
      + DigitText(PrintedDigits(args.byte(p + n), 10), false)
  {
    hide DigitText, PrintedDigits;
  }

  /** Addresses in their fields: Ethernet with the `l` qualifier, Internet without. */
  lemma AddressField(s: Spec, c: char, args: Args) returns (x: string)
    requires s.precision >= -1 && (c == 'A' || c == 'a')
    ensures InField(FieldText(s, c, args), x, s.width, s.flags.left)
    ensures if s.qualifier == 'l' then IsEthernet(x, args, args.word(s.used), c == 'A')
            else IsInternet(x, args, args.word(s.used))
  {
    var w := args.word(s.used);
    hide Padded, InField, EthernetText, InternetText, IsEthernet, IsInternet;
    EthernetReads(args, w, c == 'A');
    InternetReads(args, w);
    x := if s.qualifier == 'l' then EthernetText(args, w, c == 'A', 6) else InternetText(args, w, 4);
    PaddedField(x, s.width, s.flags.left);
  }

  /** "%%" prints one percent sign, and an unknown conversion prints itself. */
  lemma OtherField(s: Spec, c: char, args: Args)
    requires s.precision >= -1 && c !in "csAadiuoxXp" && c != '\0'
    ensures FieldText(s, c, args) == if c == '%' then "%" else ['%', c]
  {
  }

  /** The conversions that take an argument. */
  predicate Consumes(c: char) {
    c in "csAadiuoxXp"
  }

  /** A whole directive prints its field and goes on behind its conversion character, with one
      argument used for each `*` in it and one for the conversion, if that takes one. */
  lemma DirectiveGoesOn(fmt: string, args: Args, i: nat, used: nat)
    requires '\0' !in fmt && i < |fmt| && fmt[i] == '%' && Parse(fmt, args, i, used).at < |fmt|
    ensures var s := Parse(fmt, args, i, used);
      Output(fmt, args, i, used) == FieldText(s, fmt[s.at], args) + Output(fmt, args, s.at + 1,
        used + Count(fmt[i..s.at], '*') + (if Consumes(fmt[s.at]) then 1 else 0))
  {
    hide *;
    var s := Parse(fmt, args, i, used);
    var a, b, c, f := DirectiveReads(fmt, args, i, used);
    OutputStep(fmt, args, i, used);
    AtInside(fmt, s);
    TakesOne(s, fmt[s.at]);
  }

  lemma AtInside(fmt: string, s: Spec)
    requires s.at < |fmt|
    ensures At(fmt, s.at) == fmt[s.at] && After(fmt, s) == s.at + 1
  {
  }

  lemma TakesOne(s: Spec, c: char)
    ensures UsedAfter(s, c) == s.used + (if Consumes(c) then 1 else 0)
  {
  }
}
