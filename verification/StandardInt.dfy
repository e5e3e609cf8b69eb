/** Integer conversions as section 7.19.6.1 of ISO/IEC 9899:1999 words them, and
    exactly where lib/snprintf.c departs from it. */
module StandardInt {
  import opened Base
  import opened Sink
  import opened Digits
  import opened IntFormat

  // ---------- the standard's words ----------

  /** Paragraph 8: the letters abcdef for 'x' and ABCDEF for 'X'. */
  function StandardDigit(d: nat, caps: bool): char
    requires d < 16
  {
    if d < 10 then ('0' as int + d) as char
    else ((if caps then 'A' else 'a') as int + (d - 10)) as char
  }

  /** A number in positional notation, without leading zeros. */
  function Numeral(n: nat, b: nat, caps: bool): seq<char>
    requires 2 <= b <= 16
    decreases n
  {
    (if n < b then [] else Numeral(n / b, b, caps)) + [StandardDigit(n % b, caps)]
  }

  /** Paragraph 6: a minus sign below zero; otherwise a plus sign with '+', or else a
      blank with the space flag. Unsigned conversions have none. */
  function StandardSign(signed: bool, negative: bool, plus: bool, space: bool): seq<char> {
    if !signed then [] else if negative then ['-'] else if plus then ['+'] else if space then [' '] else []
  }

  /** Paragraph 6: '#' puts 0x (or 0X) before a nonzero hexadecimal number. */
  function StandardPrefix(nonzero: bool, b: nat, num: bool, caps: bool): seq<char> {
    if num && nonzero && b == 16 then ['0', if caps then 'X' else 'x'] else []
  }

  /** Paragraphs 4 and 6: blanks to the field width on the left, or on the right
      with '-'; with '0' and no '-', zeros behind sign and prefix. */
  function StandardField(front: seq<char>, digits: seq<char>, width: int, minus: bool, zero: bool): seq<char> {
    var missing := width - |front| - |digits|;
    if minus then front + digits + Repeat(' ', missing)
    else if zero then front + (Repeat('0', missing) + digits)
    else Repeat(' ', missing) + (front + digits)
  }

  /** Paragraph 8: the precision is the least number of digits; zero with precision
      zero has none. Paragraph 6: '#' with base 8 forces the first digit to be zero. */
  function StandardDigits(value: int, b: base, precision: int, flags: Flags): seq<char> {
    var digits := if value == 0 && precision == 0 then [] else Numeral(Abs(value), b, flags.up);
    var extended := Repeat('0', precision - |digits|) + digits;
    if flags.num && b == 8 && (extended == [] || extended[0] != '0') then ['0'] + extended else extended
  }

  /** The whole conversion; with a precision the '0' flag is ignored. */
  function StandardInt(value: int, b: base, width: int, precision: int, flags: Flags): seq<char> {
    StandardField(StandardFront(value, b, flags), StandardDigits(value, b, precision, flags),
                  width, flags.minus, flags.zero && precision == -1)
  }

  function StandardFront(value: int, b: base, flags: Flags): seq<char> {
    StandardSign(!flags.unsign, value < 0, flags.plus, flags.space)
    + StandardPrefix(value != 0, b, flags.num, flags.up)
  }

  // ---------- the library's ----------

  lemma FrontAgrees(value: int, b: base, flags: Flags)
    ensures SignOf(value, flags) + PrefixOf(value, b, flags) == StandardFront(value, b, flags)
  {
  }

  /** convert's digits are the number in positional notation. */
  lemma {:induction false} NumeralAgrees(v: nat, b: base, caps: bool)
    ensures DigitsOf(v, b, caps) == Numeral(v, b, caps)
    decreases v
  {
    assert v % b < b && DigitChar(v % b, caps) == StandardDigit(v % b, caps);
    if v >= b {
      DivMod(v, b);
      NumeralAgrees(v / b, b, caps);
    } else {
      assert v % b == v;
      assert [] + [DigitChar(v, caps)] == [DigitChar(v, caps)];
    }
  }

  /** Without the capitals flag no digit is a capital letter, and with it none is a small one. */
  lemma {:induction false} LetterCase(v: nat, b: base, caps: bool, k: nat)
    requires k < |DigitsOf(v, b, caps)|
    ensures
      var c := DigitsOf(v, b, caps)[k];
      '0' <= c <= '9' || (if caps then 'A' <= c <= 'F' else 'a' <= c <= 'f')
    decreases v
  {
    if v >= b {
      DivMod(v, b);
      if k < |DigitsOf(v / b, b, caps)| {
        LetterCase(v / b, b, caps, k);
      }
    }
  }

  /** The case the library gets differently: it prints a digit where none is due. */
  predicate EmptyZero(value: int, b: base, precision: int, flags: Flags) {
    value == 0 && precision == 0 && !(flags.num && b == 8)
  }

  lemma {:induction false} FirstDigit(v: nat, b: base, caps: bool)
    ensures DigitsOf(v, b, caps)[0] == '0' <==> v == 0
    decreases v
  {
    if v < b {
      DigitRoundTrip(v, caps);
    } else {
      DivMod(v, b);
      FirstDigit(v / b, b, caps);
      assert v / b > 0;
    }
  }

  lemma {:induction false} RepeatAdd(c: char, m: int, n: int)
    requires m >= 0 && n >= 0
    ensures Repeat(c, m + n) == Repeat(c, m) + Repeat(c, n)
  {
    var l, r := Repeat(c, m + n), Repeat(c, m) + Repeat(c, n);
    assert |l| == |r| && forall i :: 0 <= i < |l| ==> l[i] == r[i];
  }

  /** The digits fmtint shows before it fills the field. */
  function OwnDigits(value: int, b: base, precision: int, flags: Flags): seq<char> {
    var ds := DigitsOf(Abs(value), b, flags.up);
    Repeat('0', Max(RaisedPrecision(value, b, precision, |ds|, flags) - |ds|, 0)) + ds
  }

  lemma DigitsAgree(value: int, b: base, precision: int, flags: Flags)
    requires precision >= -1 && !EmptyZero(value, b, precision, flags)
    ensures OwnDigits(value, b, precision, flags) == StandardDigits(value, b, precision, flags)
  {
    var ds := DigitsOf(Abs(value), b, flags.up);
    FirstDigit(Abs(value), b, flags.up);
    NumeralAgrees(Abs(value), b, flags.up);
    if value == 0 && precision == 0 {
      assert Repeat('0', 0) == [];
      assert OwnDigits(value, b, precision, flags) == ds == ['0'] + [];
    } else if flags.num && value != 0 && b == 8 && precision <= |ds| {
      assert Repeat('0', 1) == Repeat('0', 0) + ['0'] == ['0'];
      assert Repeat('0', precision - |ds|) == [] && [] + ds == ds;
    } else {
      var z := Repeat('0', precision - |ds|);
      assert Repeat('0', Max(precision - |ds|, 0)) == z;
      assert z != [] ==> (z + ds)[0] == '0';
      assert z == [] ==> z + ds == ds;
    }
  }

  /** fmtint lays its digits out as the standard asks. */
  lemma LayoutAgrees(value: int, b: base, width: int, precision: int, flags: Flags, sep: seq<char>)
    requires precision >= -1 && !flags.quote
    ensures
      var front := SignOf(value, flags) + PrefixOf(value, b, flags);
      var digits := OwnDigits(value, b, precision, flags);
      IntText(value, b, width, precision, flags, sep) ==
        StandardField(front, digits, width, flags.minus, flags.zero && precision == -1)
  {
    IntTextParts(value, b, width, precision, flags, sep);
    var front := SignOf(value, flags) + PrefixOf(value, b, flags);
    var ds := DigitsOf(Abs(value), b, flags.up);
    var digits := OwnDigits(value, b, precision, flags);
    var own := |digits| - |ds|;
    var missing := width - |front| - |digits|;
    var plan := PlanOf(value, b, width, precision, flags, []);
    if !flags.minus && flags.zero && precision == -1 {
      assert plan.zpad == Max(missing, 0) + own && plan.spad == 0;
      RepeatAdd('0', Max(missing, 0), own);
      assert Repeat('0', Max(missing, 0)) == Repeat('0', missing);
      ConcatAssoc(Repeat('0', missing), Repeat('0', own), ds);
      assert [] + (front + (Repeat('0', missing) + digits)) == front + (Repeat('0', missing) + digits);
    } else {
      assert plan.zpad == own && plan.spad == Max(missing, 0);
      assert Repeat(' ', Max(missing, 0)) == Repeat(' ', missing);
    }
  }

  /** Where a digit is due the two agree to the character. */
  lemma AgreesWhenDue(value: int, b: base, width: int, precision: int, flags: Flags, sep: seq<char>)
    requires precision >= -1 && !flags.quote && !EmptyZero(value, b, precision, flags)
    ensures IntText(value, b, width, precision, flags, sep) == StandardInt(value, b, width, precision, flags)
  {
    LayoutAgrees(value, b, width, precision, flags, sep);
    DigitsAgree(value, b, precision, flags);
    FrontAgrees(value, b, flags);
  }

  /** Where none is due, the library prints one and the standard does not. */
  lemma DiffersWhenEmpty(b: base, width: int, flags: Flags, sep: seq<char>)
    requires !flags.quote && EmptyZero(0, b, 0, flags)
    ensures '0' in IntText(0, b, width, 0, flags, sep)
    ensures '0' !in StandardInt(0, b, width, 0, flags)
  {
    LayoutAgrees(0, b, width, 0, flags, sep);
    var digits := OwnDigits(0, b, 0, flags);
    DigitRoundTrip(0, flags.up);
    assert DigitsOf(0, b, flags.up) == ['0'];
    assert digits == Repeat('0', 0) + ['0'] == ['0'];
    assert StandardDigits(0, b, 0, flags) == [] by {
      assert Repeat('0', 0) + [] == [];
    }
    FrontAgrees(0, b, flags);
    var front := SignOf(0, flags) + PrefixOf(0, b, flags);
    assert (front + digits)[|front|] == '0';
    assert '0' in front + digits;
    assert '0' !in Repeat(' ', width - |front| - 0);
  }

  /** Over all values, bases, widths, precisions and flags without the quote,
      fmtint's text is the standard's if and only if it is not a zero with
      precision zero (other than '#' octal). */
  lemma StandardIff(value: int, b: base, width: int, precision: int, flags: Flags, sep: seq<char>)
    requires precision >= -1 && !flags.quote
    ensures IntText(value, b, width, precision, flags, sep) == StandardInt(value, b, width, precision, flags)
            <==> !EmptyZero(value, b, precision, flags)
  {
    if EmptyZero(value, b, precision, flags) {
      DiffersWhenEmpty(b, width, flags, sep);
    } else {
      AgreesWhenDue(value, b, width, precision, flags, sep);
    }
  }

  // ---------- the quote flag ----------

  /** How many characters of a text are digits. */
  function CountDigits(s: seq<char>): nat {
    if s == [] then 0 else (if DigitVal(s[0]) >= 0 then 1 else 0) + CountDigits(s[1..])
  }

  lemma {:induction false} CountAppend(s: seq<char>, t: seq<char>)
    ensures CountDigits(s + t) == CountDigits(s) + CountDigits(t)
    decreases |s|
  {
    if s == [] {
      assert s + t == t;
    } else {
      assert (s + t)[0] == s[0] && (s + t)[1..] == s[1..] + t;
      CountAppend(s[1..], t);
    }
  }

  lemma {:induction false} CountRepeat(c: char, n: int)
    ensures CountDigits(Repeat(c, n)) == if DigitVal(c) >= 0 then Max(n, 0) else 0
    decreases n
  {
    if n > 0 {
      CountRepeat(c, n - 1);
      CountAppend(Repeat(c, n - 1), [c]);
    }
  }

  lemma {:induction false} CountGrouped(s: seq<char>, sep: seq<char>)
    requires CountDigits(sep) == 0
    ensures CountDigits(Grouped(s, sep)) == CountDigits(s)
    decreases |s|
  {
    if s != [] {
      var group := if |s| > 1 && (|s| - 1) % 3 == 0 then sep else [];
      CountGrouped(s[1..], sep);
      CountAppend([s[0]] + group, Grouped(s[1..], sep));
      CountAppend([s[0]], group);
      assert [s[0]][1..] == [];
      assert CountDigits([s[0]]) == if DigitVal(s[0]) >= 0 then 1 else 0;
    }
  }

  lemma {:induction false} CountAllDigits(s: seq<char>, b: base)
    requires AllDigits(s, b)
    ensures CountDigits(s) == |s|
    decreases |s|
  {
    if s != [] {
      CountAllDigits(s[1..], b);
    }
  }

  /** The separator characters that getnumsep announces. */
  function Separators(value: int, b: base, flags: Flags, sep: seq<char>): (n: int)
    ensures n >= 0
  {
    var pos := |DigitsOf(Abs(value), b, flags.up)|;
    assert NumSeps(pos) >= 0;
    NumSeps(pos) * |sep|
  }

  lemma GroupedText(value: int, b: base, flags: Flags, sep: seq<char>)
    requires flags.quote
    ensures
      var ds := DigitsOf(Abs(value), b, flags.up);
      var n := Separators(value, b, flags, sep);
      && |Grouped(ds, if n > 0 then sep else [])| == |ds| + n
      && (CountDigits(sep) == 0 ==> CountDigits(Grouped(ds, if n > 0 then sep else [])) == |ds|)
  {
    var ds := DigitsOf(Abs(value), b, flags.up);
    ReadDigits(Abs(value), b, flags.up);
    CountAllDigits(ds, b);
    GroupedLength(ds, sep);
    GroupedWithout(ds);
    if CountDigits(sep) == 0 {
      CountGrouped(ds, sep);
    }
  }

  /** How long the text is with the quote flag. */
  lemma QuotedLength(value: int, b: base, width: int, precision: int, flags: Flags, sep: seq<char>)
    requires flags.quote
    ensures
      var seps, pos := Separators(value, b, flags, sep), |DigitsOf(Abs(value), b, flags.up)|;
      var prec := RaisedPrecision(value, b, precision, pos, flags);
      var front := |SignOf(value, flags)| + |PrefixOf(value, b, flags)|;
      |IntText(value, b, width, precision, flags, sep)| ==
        front + Max(prec - pos - seps, 0) + pos + seps + Max(width - front - seps - Max(prec, pos), 0)
  {
    GroupedText(value, b, flags, sep);
  }

  /** How many digits it shows, where a precision keeps the '0' flag from adding any. */
  lemma QuotedCount(value: int, b: base, width: int, precision: int, flags: Flags, sep: seq<char>)
    requires flags.quote && precision >= 0 && CountDigits(sep) == 0
    ensures
      var seps, pos := Separators(value, b, flags, sep), |DigitsOf(Abs(value), b, flags.up)|;
      var prec := RaisedPrecision(value, b, precision, pos, flags);
      CountDigits(IntText(value, b, width, precision, flags, sep)) ==
        CountDigits(PrefixOf(value, b, flags)) + Max(prec - pos - seps, 0) + pos
  {
    GroupedText(value, b, flags, sep);
    var plan := PlanOf(value, b, width, precision, flags, sep);
    var ds := DigitsOf(Abs(value), b, flags.up);
    CountPieces(SignOf(value, flags), PrefixOf(value, b, flags), Repeat('0', plan.zpad),
                Grouped(ds, if plan.separators > 0 then sep else []), Repeat(' ', plan.spad), flags.minus);
    CountRepeat('0', plan.zpad);
    CountRepeat(' ', plan.spad);
    CountSign(value, flags);
  }

  lemma CountSign(value: int, flags: Flags)
    ensures CountDigits(SignOf(value, flags)) == 0
  {
  }

  lemma CountPieces(a: seq<char>, b: seq<char>, c: seq<char>, d: seq<char>, blanks: seq<char>, left: bool)
    ensures
      var body := a + b + c + d;
      CountDigits(if left then body + blanks else blanks + body) ==
        CountDigits(a) + CountDigits(b) + CountDigits(c) + CountDigits(d) + CountDigits(blanks)
  {
    CountAppend(a, b);
    CountAppend(a + b, c);
    CountAppend(a + b + c, d);
    CountAppend(a + b + c + d, blanks);
    CountAppend(blanks, a + b + c + d);
  }

  /** With the quote flag the separators are also taken off the leading zeros. So the text
      shows the digits its precision asks for, if and only if there are no separators or
      the digits alone are as many. */
  lemma QuotedPrecisionIff(value: int, b: base, width: int, precision: int, flags: Flags, sep: seq<char>)
    requires flags.quote && precision >= 0 && CountDigits(sep) == 0
    ensures
      var text := IntText(value, b, width, precision, flags, sep);
      var pos := |DigitsOf(Abs(value), b, flags.up)|;
      var prec := RaisedPrecision(value, b, precision, pos, flags);
      CountDigits(text) == CountDigits(PrefixOf(value, b, flags)) + Max(prec, pos)
      <==> Separators(value, b, flags, sep) == 0 || prec <= pos
  {
    QuotedCount(value, b, width, precision, flags, sep);
  }

  /** Nor does the text then fill its field: it has max(width, sign, prefix, separators and
      digits together) characters under the same condition, and no other. */
  lemma QuotedWidthIff(value: int, b: base, width: int, precision: int, flags: Flags, sep: seq<char>)
    requires flags.quote
    ensures
      var text, seps := IntText(value, b, width, precision, flags, sep), Separators(value, b, flags, sep);
      var pos := |DigitsOf(Abs(value), b, flags.up)|;
      var prec := RaisedPrecision(value, b, precision, pos, flags);
      var front := |SignOf(value, flags)| + |PrefixOf(value, b, flags)|;
      |text| == Max(width, front + seps + Max(prec, pos)) <==> seps == 0 || prec <= pos
  {
    QuotedLength(value, b, width, precision, flags, sep);
  }

  /** "%'10.6d" of 1234 has nine characters, five of them digits. */
  lemma QuotedFallsShort()
    ensures
      var text := IntText(1234, 10, 10, 6, NoFlags.(quote := true), ",");
      |text| == 9 && CountDigits(text) == 5
  {
    var flags := NoFlags.(quote := true);
    var ds := DigitsOf(1234, 10, false);
    assert ds == DigitsOf(123, 10, false) + ['4'];
    assert DigitsOf(123, 10, false) == DigitsOf(12, 10, false) + ['3'];
    assert DigitsOf(12, 10, false) == DigitsOf(1, 10, false) + ['2'];
    assert |ds| == 4 && Separators(1234, 10, flags, ",") == 1;
    assert CountDigits(",") == 0;
    assert CountDigits("") == 0;
    QuotedLength(1234, 10, 10, 6, flags, ",");
    QuotedCount(1234, 10, 10, 6, flags, ",");
  }
}
