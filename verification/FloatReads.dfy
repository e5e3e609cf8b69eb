/** What the text of a floating conversion says: read back, it is the value
    rounded at the last printed place. */
module FloatReads {
  import opened Base
  import opened Sink
  import opened Digits
  import opened Decimal
  import opened IntFormat
  import opened FloatFormat

  // ---------- a reader ----------

  /** An exponent: a letter, a sign, digits; zero where there is none. */
  function ReadExponent(s: seq<char>): int {
    if |s| < 2 || (s[0] != 'e' && s[0] != 'E') then 0
    else
      var n := Read(DigitRun(s[2..], 10), 10) as int;
      if s[1] == '-' then -n else n
  }

  /** What digits and a fraction say, with the point moved by `e`. */
  function Said(ds: seq<char>, frac: seq<char>, e: int): real
    requires Decimals(ds + frac)
  {
    Shift(Read(ds + frac, 10) as real, e - |frac|)
  }

  function ReadFraction(whole: seq<char>, s: seq<char>): real
    requires Decimals(whole)
  {
    var frac := DigitRun(s, 10);
    Said(whole, frac, ReadExponent(s[|frac|..]))
  }

  /** Digits, a point and digits, an exponent: the digits denote an integer whose
      point is then moved. */
  function ReadNumber(s: seq<char>): real {
    var whole := DigitRun(s, 10);
    var rest := s[|whole|..];
    if rest != [] && rest[0] == '.' then ReadFraction(whole, rest[1..]) else Said(whole, [], ReadExponent(rest))
  }

  /** Reads a number as strtod does: blanks, a sign, a number. */
  function ReadFloat(s: seq<char>): real {
    var t := SkipBlanks(s);
    if t != [] && t[0] == '-' then -ReadNumber(t[1..])
    else if t != [] && t[0] == '+' then ReadNumber(t[1..])
    else ReadNumber(t)
  }

  function Signed(neg: bool, x: real): real {
    if neg then -x else x
  }

  /** Neither a digit nor a point comes next. */
  predicate Ends(tail: seq<char>) {
    tail == [] || (tail[0] != '.' && !(0 <= DigitVal(tail[0]) < 10))
  }

  lemma SignReads(neg: bool, flags: Flags, blanks: int, number: seq<char>)
    requires number != [] && 0 <= DigitVal(number[0]) < 10
    ensures ReadFloat(Repeat(' ', blanks) + (SignChars(neg, flags) + number)) == Signed(neg, ReadNumber(number))
  {
    var sign := SignChars(neg, flags);
    var t := sign + number;
    SkipRepeat(blanks, t);
    assert SkipBlanks(number) == number;
    assert sign != "" ==> t[0] == sign[0] && t[1..] == number;
    assert sign == "" ==> t == number;
  }

  lemma FractionRun(ds: seq<char>, frac: seq<char>, tail: seq<char>)
    requires Decimals(ds) && Decimals(frac) && Ends(tail)
    ensures ReadFraction(ds, frac + tail) == Said(ds, frac, ReadExponent(tail))
  {
    RunStops(frac, tail, 10);
    assert (frac + tail)[|frac|..] == tail;
  }

  lemma WholeRun(ds: seq<char>, rest: seq<char>)
    requires Decimals(ds) && (rest == [] || !(0 <= DigitVal(rest[0]) < 10))
    ensures ReadNumber(ds + rest) ==
            if rest != [] && rest[0] == '.' then ReadFraction(ds, rest[1..]) else Said(ds, [], ReadExponent(rest))
  {
    RunStops(ds, rest, 10);
    assert (ds + rest)[|ds|..] == rest;
  }

  /** Digits, an optional point, a fraction and a tail are read as one integer
      with its point moved. */
  lemma PartsRead(ds: seq<char>, point: seq<char>, frac: seq<char>, tail: seq<char>)
    requires Decimals(ds) && Decimals(frac) && Ends(tail)
    requires point == "." || (point == "" && frac == [])
    ensures ReadNumber(ds + (point + (frac + tail))) == Said(ds, frac, ReadExponent(tail))
  {
    var rest := point + (frac + tail);
    WholeRun(ds, rest);
    if point == "." {
      assert rest[0] == '.' && rest[1..] == frac + tail;
      FractionRun(ds, frac, tail);
    } else {
      assert rest == tail;
    }
  }

  // ---------- digits ----------

  lemma TwoRead(x: nat, y: nat)
    requires x < 10 && y < 10
    ensures
      var s := [DigitChar(x, false), DigitChar(y, false)];
      Decimals(s) && Read(s, 10) == 10 * x + y
  {
    DigitRoundTrip(x, false);
    DigitRoundTrip(y, false);
    var c, d := DigitChar(x, false), DigitChar(y, false);
    ReadSnoc([], c, 10);
    assert [] + [c] == [c];
    ReadSnoc([c], d, 10);
    assert [c] + [d] == [c, d];
  }

  lemma LastTwoDigits(n: nat)
    requires n <= 100
    ensures 10 * (n / 10 % 10) + n % 10 == if n == 100 then 0 else n
  {
  }

  /** Two digits name a number below a hundred; a hundred loses its first digit. */
  lemma TwoDigitsRead(n: nat)
    requires n <= 100
    ensures Decimals(TwoDigits(n)) && Read(TwoDigits(n), 10) == if n == 100 then 0 else n
  {
    LastTwoDigits(n);
    TwoRead(n / 10 % 10, n % 10);
  }

  lemma ExponentReads(parts: Parts, flags: Flags, rest: seq<char>)
    requires -100 < parts.exponent <= 100 && (!parts.estyle ==> parts.exponent == 0)
    requires rest == [] || rest[0] == ' '
    ensures Ends(ExpShown(parts, flags) + rest)
    ensures ReadExponent(ExpShown(parts, flags) + rest) == if parts.exponent == 100 then 0 else parts.exponent
  {
    var exp := ExpShown(parts, flags);
    var s := exp + rest;
    if parts.estyle {
      var two := TwoDigits(Abs(parts.exponent));
      assert s[0] == exp[0] && s[1] == exp[1] && s[2..] == two + rest;
      TwoDigitsRead(Abs(parts.exponent));
      RunStops(two, rest, 10);
    } else {
      assert s == rest;
    }
  }

  /** The fraction's digits read as the fraction, and there are `p` of them. */
  lemma FractionReads(fp: nat, p: nat)
    requires fp < Ten(p) && p <= MAX_PRECISION
    ensures Decimals(FracDigits(fp, p)) && Read(FracDigits(fp, p), 10) == fp && |FracDigits(fp, p)| == p
  {
    var ds := if fp == 0 then [] else DigitsOf(fp, 10, false);
    if fp > 0 {
      FractionFits(fp, p);
      ReadDigits(fp, 10, false);
    }
    ReadZeros(p - |ds|, ds, 10);
  }

  /** Digits put behind digits shift the number in front. */
  lemma {:induction false} ReadBehind(s: seq<char>, t: seq<char>)
    requires Decimals(s) && Decimals(t)
    ensures Decimals(s + t) && Read(s + t, 10) == Places(Read(s, 10), |t|) + Read(t, 10)
    decreases |t|
  {
    if t == [] {
      assert s + t == s;
    } else {
      var init, last := t[..|t| - 1], t[|t| - 1];
      assert t == init + [last];
      ReadBehind(s, init);
      ConcatAssoc(s, init, [last]);
      ReadSnoc(s + init, last, 10);
      ReadSnoc(init, last, 10);
    }
  }

  lemma ShiftTen(x: nat, e: int)
    ensures Shift((10 * x) as real, e) == Shift(x as real, e + 1)
  {
    ShiftShift(x as real, 1, e);
    assert Shift(x as real, 1) == 10.0 * Shift(x as real, 0);
  }

  lemma DropZero(ds: seq<char>, init: seq<char>, e: int)
    requires Decimals(ds + init)
    ensures Decimals(ds + (init + ['0'])) && Said(ds, init + ['0'], e) == Said(ds, init, e)
  {
    ConcatAssoc(ds, init, ['0']);
    ReadSnoc(ds + init, '0', 10);
    ShiftTen(Read(ds + init, 10), e - |init| - 1);
  }

  /** Dropping zeros at the end of a fraction keeps the number. */
  lemma {:induction false} StripKeepsValue(ds: seq<char>, frac: seq<char>, e: int, x: real)
    requires Decimals(ds) && Decimals(frac) && Decimals(ds + frac) && Said(ds, frac, e) == x
    ensures Decimals(StripZeros(frac)) && Decimals(ds + StripZeros(frac))
    ensures Said(ds, StripZeros(frac), e) == x
    decreases |frac|
  {
    if frac != [] && frac[|frac| - 1] == '0' {
      var init := frac[..|frac| - 1];
      assert frac == init + ['0'];
      DigitsAppend(ds, init);
      DropZero(ds, init, e);
      StripKeepsValue(ds, init, e, x);
    }
  }

  lemma DigitsAppend(a: seq<char>, b: seq<char>)
    requires Decimals(a) && Decimals(b)
    ensures Decimals(a + b)
  {
  }

  // ---------- the number ----------

  /** The integer that the digits of these parts spell. */
  function Spelled(parts: Parts): nat {
    Places(parts.ip, parts.precision) + parts.fp
  }

  predicate Printable(parts: Parts) {
    && parts.fp < Ten(parts.precision) && parts.precision <= MAX_PRECISION
    && -100 < parts.exponent <= 100 && (!parts.estyle ==> parts.exponent == 0)
  }

  /** The exponent as two digits can show it. */
  function ShownExponent(parts: Parts): int {
    if parts.exponent == 100 then 0 else parts.exponent
  }

  lemma WholeFraction(parts: Parts, ds: seq<char>, e: int)
    requires Printable(parts) && Decimals(ds) && Read(ds, 10) == parts.ip
    ensures
      var frac := FracDigits(parts.fp, parts.precision);
      && Decimals(frac) && Decimals(ds + frac)
      && Said(ds, frac, e) == Shift(Spelled(parts) as real, e - parts.precision)
  {
    FractionReads(parts.fp, parts.precision);
    ReadBehind(ds, FracDigits(parts.fp, parts.precision));
  }

  lemma MaybeStripped(ds: seq<char>, digits: seq<char>, strip: bool, e: int, x: real)
    requires Decimals(ds) && Decimals(digits) && Decimals(ds + digits) && Said(ds, digits, e) == x
    ensures
      var frac := if strip then StripZeros(digits) else digits;
      Decimals(frac) && Decimals(ds + frac) && Said(ds, frac, e) == x
  {
    StripKeepsValue(ds, digits, e, x);
  }

  lemma FractionShown(parts: Parts, flags: Flags, ds: seq<char>, e: int)
    requires Printable(parts) && Decimals(ds) && Read(ds, 10) == parts.ip
    ensures
      var frac := FracShown(parts, flags);
      && Decimals(frac) && Decimals(ds + frac)
      && Said(ds, frac, e) == Shift(Spelled(parts) as real, e - parts.precision)
  {
    WholeFraction(parts, ds, e);
    MaybeStripped(ds, FracDigits(parts.fp, parts.precision), flags.typeG && !flags.num, e,
                  Shift(Spelled(parts) as real, e - parts.precision));
  }

  lemma Conclude(ds: seq<char>, point: seq<char>, frac: seq<char>, tail: seq<char>, e: int, x: real)
    requires Decimals(ds) && Decimals(frac) && Decimals(ds + frac) && Said(ds, frac, e) == x
    requires Ends(tail) && ReadExponent(tail) == e
    requires point == "." || (point == "" && frac == [])
    ensures ReadNumber(ds + (point + (frac + tail))) == x
  {
    PartsRead(ds, point, frac, tail);
  }

  lemma ZerosAndDigits(zeros: int, n: nat)
    ensures
      var ds := Repeat('0', zeros) + DigitsOf(n, 10, false);
      ds != [] && Decimals(ds) && Read(ds, 10) == n
  {
    ReadDigits(n, 10, false);
    ReadZeros(zeros, DigitsOf(n, 10, false), 10);
  }

  lemma BehindDigits(parts: Parts, flags: Flags, zeros: int, tail: seq<char>, e: int, x: real)
    requires Printable(parts) && Ends(tail) && ReadExponent(tail) == e
    requires x == Shift(Spelled(parts) as real, e - parts.precision)
    ensures
      var ds, frac := Repeat('0', zeros) + DigitsOf(parts.ip, 10, false), FracShown(parts, flags);
      var number := ds + (PointShown(frac, flags) + (frac + tail));
      number != [] && 0 <= DigitVal(number[0]) < 10 && ReadNumber(number) == x
  {
    var ds, frac := Repeat('0', zeros) + DigitsOf(parts.ip, 10, false), FracShown(parts, flags);
    ZerosAndDigits(zeros, parts.ip);
    FractionShown(parts, flags, ds, e);
    Conclude(ds, PointShown(frac, flags), frac, tail, e, x);
    Front(ds, PointShown(frac, flags) + (frac + tail));
  }

  lemma NumberParts(parts: Parts, flags: Flags, zeros: int, rest: seq<char>)
    requires !flags.quote
    ensures
      var ds, frac := Repeat('0', zeros) + DigitsOf(parts.ip, 10, false), FracShown(parts, flags);
      Repeat('0', zeros) + (Number(parts, flags, []) + rest) ==
        ds + (PointShown(frac, flags) + (frac + (ExpShown(parts, flags) + rest)))
  {
    var own, frac := DigitsOf(parts.ip, 10, false), FracShown(parts, flags);
    GroupedWithout(own);
    Gather(Repeat('0', zeros), own, PointShown(frac, flags), frac, ExpShown(parts, flags), rest);
  }

  /** Leading zeros, the number and blanks behind: what is read is what the parts spell. */
  lemma NumberReads(parts: Parts, flags: Flags, zeros: int, rest: seq<char>, tail: seq<char>, e: int, x: real)
    requires Printable(parts) && !flags.quote && tail == ExpShown(parts, flags) + rest
    requires Ends(tail) && ReadExponent(tail) == e && x == Shift(Spelled(parts) as real, e - parts.precision)
    ensures
      var number := Repeat('0', zeros) + (Number(parts, flags, []) + rest);
      number != [] && 0 <= DigitVal(number[0]) < 10 && ReadNumber(number) == x
  {
    NumberParts(parts, flags, zeros, rest);
    BehindDigits(parts, flags, zeros, tail, e, x);
  }

  lemma Front(ds: seq<char>, tail: seq<char>)
    requires ds != [] && Decimals(ds)
    ensures ds + tail != [] && 0 <= DigitVal((ds + tail)[0]) < 10
  {
    assert (ds + tail)[0] == ds[0];
  }

  lemma Gather(z: seq<char>, d: seq<char>, p: seq<char>, f: seq<char>, e: seq<char>, r: seq<char>)
    ensures z + ((d + p + f + e) + r) == (z + d) + (p + (f + (e + r)))
  {
  }

  /** Blanks in front, sign, zeros, number, blanks behind: every field is of this form. */
  lemma FieldParts(sign: seq<char>, number: seq<char>, width: int, flags: Flags)
    ensures
      var missing := Max(width - |sign| - |number|, 0);
      var front := if flags.minus || flags.zero then 0 else missing;
      var zeros := if !flags.minus && flags.zero then missing else 0;
      var behind := if flags.minus then missing else 0;
      InField(sign, number, width, flags) ==
        Repeat(' ', front) + (sign + (Repeat('0', zeros) + (number + Repeat(' ', behind))))
  {
    var missing := Max(width - |sign| - |number|, 0);
    assert Repeat(' ', missing) == Repeat(' ', width - |sign| - |number|);
    assert Repeat('0', missing) == Repeat('0', width - |sign| - |number|);
    assert number + [] == number == [] + number;
    if flags.minus {
      assert [] + (sign + ([] + (number + Repeat(' ', missing)))) == sign + number + Repeat(' ', missing);
    } else if flags.zero {
      assert [] + (sign + (Repeat('0', missing) + number)) == sign + Repeat('0', missing) + number;
    } else {
      ConcatAssoc(Repeat(' ', missing), sign, number);
    }
  }

  lemma FieldReads(neg: bool, parts: Parts, width: int, flags: Flags, sep: seq<char>, x: real)
    requires Printable(parts) && !flags.quote
    requires x == Shift(Spelled(parts) as real, ShownExponent(parts) - parts.precision)
    ensures ReadFloat(InField(SignChars(neg, flags), Number(parts, flags, sep), width, flags)) == Signed(neg, x)
  {
    var sign, number := SignChars(neg, flags), Number(parts, flags, []);
    assert Number(parts, flags, sep) == number;
    var missing := Max(width - |sign| - |number|, 0);
    var front := if flags.minus || flags.zero then 0 else missing;
    var zeros := if !flags.minus && flags.zero then missing else 0;
    var behind := if flags.minus then missing else 0;
    FieldParts(sign, number, width, flags);
    ExponentReads(parts, flags, Repeat(' ', behind));
    NumberReads(parts, flags, zeros, Repeat(' ', behind), ExpShown(parts, flags) + Repeat(' ', behind),
                ShownExponent(parts), x);
    SignReads(neg, flags, front, Repeat('0', zeros) + (number + Repeat(' ', behind)));
  }
}
