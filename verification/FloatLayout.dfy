/** What the field of a floating conversion looks like, character by character, in the
    words of section 7.19.6.1 of ISO/IEC 9899:1999. */
module FloatLayout {
  import opened Base
  import opened Sink
  import opened Digits
  import opened Decimal
  import opened IntFormat
  import opened StandardInt
  import opened FloatFormat
  import opened FloatReads
  import Accuracy = FloatAccuracy

  // ---------- the parts ----------

  /** Grouping counts threes from the right. */
  lemma {:induction false} GroupedFromRight(s: seq<char>, sep: seq<char>)
    ensures Grouped(s, sep) == if |s| <= 3 then s else Grouped(s[..|s| - 3], sep) + sep + s[|s| - 3..]
    decreases |s|
  {
    if |s| > 0 {
      GroupedFromRight(s[1..], sep);
      if |s| > 4 {
        LongGroup(s, s[..|s| - 3], s[|s| - 3..], sep);
      } else if |s| == 4 {
        assert s[..1] == [s[0]] && Grouped(s[..1][1..], sep) == [];
        assert Grouped(s[..1], sep) == [s[0]];
      } else {
        assert [s[0]] + s[1..] == s;
      }
    }
  }

  lemma LongGroup(s: seq<char>, front: seq<char>, last: seq<char>, sep: seq<char>)
    requires |s| > 4 && front == s[..|s| - 3] && last == s[|s| - 3..]
    requires Grouped(s[1..], sep) == Grouped(s[1..][..|s| - 4], sep) + sep + s[1..][|s| - 4..]
    ensures Grouped(s, sep) == Grouped(front, sep) + sep + last
  {
    assert s[1..][..|s| - 4] == front[1..] && s[1..][|s| - 4..] == last;
    var group := if (|s| - 1) % 3 == 0 then sep else [];
    assert (|front| - 1) % 3 == 0 <==> (|s| - 1) % 3 == 0;
    ConcatAssoc([s[0]] + group, Grouped(front[1..], sep) + sep, last);
    ConcatAssoc([s[0]] + group, Grouped(front[1..], sep), sep);
  }

  /** The fraction due: as many digits as there are places; '%g' without '#' shows no zero
      at its end (paragraph 8). */
  predicate FractionDue(frac: seq<char>, parts: Parts, flags: Flags) {
    && Decimals(frac)
    && (if flags.typeG && !flags.num then frac == [] || frac[|frac| - 1] != '0' else |frac| == parts.precision)
  }

  /** Paragraph 8: a letter, a sign and the last two digits of the exponent. */
  function StandardExponent(estyle: bool, exponent: int, caps: bool): seq<char> {
    if !estyle then []
    else
      var e := Abs(exponent);
      [if caps then 'E' else 'e', if exponent < 0 then '-' else '+',
       StandardDigit(e / 10 % 10, false), StandardDigit(e % 10, false)]
  }

  lemma ExponentAgrees(parts: Parts, flags: Flags)
    ensures ExpShown(parts, flags) == StandardExponent(parts.estyle, parts.exponent, flags.up)
  {
    if parts.estyle {
      var e := Abs(parts.exponent);
      DigitAgrees(e / 10 % 10);
      DigitAgrees(e % 10);
    }
  }

  lemma DigitAgrees(d: nat)
    requires d < 10
    ensures DigitChar(d, false) == StandardDigit(d, false)
  {
  }

  lemma FractionIsDue(parts: Parts, flags: Flags)
    requires Printable(parts)
    ensures FractionDue(FracShown(parts, flags), parts, flags)
  {
    FractionReads(parts.fp, parts.precision);
  }

  lemma FieldAgrees(sign: seq<char>, number: seq<char>, width: int, flags: Flags)
    ensures InField(sign, number, width, flags) == StandardField(sign, number, width, flags.minus, flags.zero)
  {
    var missing := width - |sign| - |number|;
    ConcatAssoc(sign, Repeat('0', missing), number);
    ConcatAssoc(Repeat(' ', missing), sign, number);
  }

  /** For every finite value: the field holds a sign as for integers, the integer part in
      groups or not, a point exactly with '#' or before digits, the fraction due and the
      exponent, justified and padded as the standard asks. */
  lemma FieldLayout(v: real, width: int, precision: int, flags: Flags, sep: seq<char>, parts: Parts, text: seq<char>)
    returns (frac: seq<char>)
    requires Accuracy.Callable(precision, flags) && PartsOf(Magnitude(v), precision, flags) == Some(parts)
    requires FloatText(Fin(v), width, precision, flags, sep) == Some(text)
    ensures FractionDue(frac, parts, flags)
    ensures
      var whole := Grouped(Numeral(parts.ip, 10, false), if flags.quote then sep else []);
      var point := if frac != [] || flags.num then ['.'] else [];
      text == StandardField(StandardSign(true, v < 0.0, flags.plus, flags.space),
                            whole + point + frac + StandardExponent(parts.estyle, parts.exponent, flags.up),
                            width, flags.minus, flags.zero)
  {
    frac := FracShown(parts, flags);
    Accuracy.PartsAreScaled(Magnitude(v), precision, flags);
    FractionIsDue(parts, flags);
    NumeralAgrees(parts.ip, 10, false);
    ExponentAgrees(parts, flags);
    FieldAgrees(SignChars(v < 0.0, flags), Number(parts, flags, sep), width, flags);
  }

  /** Infinities and NaN are words, capitals for capital letters, padded with blanks only. */
  lemma WordLayout(v: FVal, width: int, precision: int, flags: Flags, sep: seq<char>)
    requires !v.Fin? && Accuracy.Callable(precision, flags)
    ensures
      var word := if v.NaN? then (if flags.up then "NAN" else "nan") else (if flags.up then "INF" else "inf");
      FloatText(v, width, precision, flags, sep) ==
        Some(StandardField([], StandardSign(true, v.Inf? && v.neg, flags.plus, flags.space) + word,
                           width, flags.minus, false))
  {
    var body := SignChars(Negative(v), flags) + Word(v, flags);
    assert [] + body == body;
  }

  // ---------- the fraction, read off the text ----------

  /** What stands behind the first point. */
  function BehindPoint(s: seq<char>): seq<char> {
    if s == [] then [] else if s[0] == '.' then s[1..] else BehindPoint(s[1..])
  }

  /** The digits behind the first point. */
  function FractionIn(s: seq<char>): seq<char> {
    DigitRun(BehindPoint(s), 10)
  }

  lemma {:induction false} BehindFirst(a: seq<char>, b: seq<char>)
    requires '.' !in a
    ensures BehindPoint(a + b) == BehindPoint(b) && ('.' in a + b <==> '.' in b)
    decreases |a|
  {
    if a == [] {
      assert a + b == b;
    } else {
      assert (a + b)[0] == a[0] && (a + b)[1..] == a[1..] + b;
      BehindFirst(a[1..], b);
      assert a + b == [a[0]] + (a[1..] + b);
    }
  }

  /** Whatever stands before the point and behind the fraction, both are found. */
  lemma FractionFound(a: seq<char>, point: seq<char>, frac: seq<char>, tail: seq<char>)
    requires '.' !in a && '.' !in tail && Decimals(frac) && (tail == [] || !(0 <= DigitVal(tail[0]) < 10))
    requires point == ['.'] || (point == [] && frac == [])
    ensures FractionIn(a + (point + (frac + tail))) == frac
    ensures '.' in a + (point + (frac + tail)) <==> point != []
  {
    var rest := point + (frac + tail);
    BehindFirst(a, rest);
    if point == ['.'] {
      assert rest[0] == '.' && rest[1..] == frac + tail;
      RunStops(frac, tail, 10);
    } else {
      assert rest == tail;
      BehindFirst(tail, []);
      assert tail + [] == tail;
    }
  }

  lemma {:induction false} NoPointGrouped(s: seq<char>, sep: seq<char>)
    requires '.' !in s && '.' !in sep
    ensures '.' !in Grouped(s, sep)
    decreases |s|
  {
    if s != [] {
      assert s[0] in s;
      assert forall c :: c in s[1..] ==> c in s;
      NoPointGrouped(s[1..], sep);
    }
  }

  lemma NoPointDigits(s: seq<char>)
    requires Decimals(s)
    ensures '.' !in s
  {
    forall i | 0 <= i < |s|
      ensures s[i] != '.'
    {
      assert 0 <= DigitVal(s[i]);
    }
  }

  lemma NoPointJoin(a: seq<char>, b: seq<char>, c: seq<char>, d: seq<char>)
    requires '.' !in a && '.' !in b && '.' !in c && '.' !in d
    ensures '.' !in a + (b + (c + d))
  {
  }

  /** A field is blanks, sign, zeros, number and blanks; its fraction is the number's. */
  lemma FractionInField(sign: seq<char>, whole: seq<char>, point: seq<char>, frac: seq<char>, exp: seq<char>,
                        width: int, minus: bool, zero: bool)
    requires '.' !in sign && '.' !in whole && '.' !in exp && Decimals(frac)
    requires exp == [] || !(0 <= DigitVal(exp[0]) < 10)
    requires point == ['.'] || (point == [] && frac == [])
    ensures
      var text := StandardField(sign, whole + point + frac + exp, width, minus, zero);
      FractionIn(text) == frac && ('.' in text <==> point != [])
  {
    var number := whole + point + frac + exp;
    var missing := width - |sign| - |number|;
    var front := if minus || zero then [] else Repeat(' ', missing);
    var zeros := if !minus && zero then Repeat('0', missing) else [];
    var behind := if minus then Repeat(' ', missing) else [];
    FieldInPieces(sign, whole, point, frac, exp, width, minus, zero, front, zeros, behind);
    NoPointJoin(front, sign, zeros, whole);
    assert (exp + behind) != [] ==> (exp + behind)[0] == if exp != [] then exp[0] else ' ';
    FractionFound(front + (sign + (zeros + whole)), point, frac, exp + behind);
  }

  lemma FieldInPieces(sign: seq<char>, whole: seq<char>, point: seq<char>, frac: seq<char>, exp: seq<char>,
                      width: int, minus: bool, zero: bool, front: seq<char>, zeros: seq<char>, behind: seq<char>)
    requires
      var missing := width - |sign| - |whole + point + frac + exp|;
      && front == (if minus || zero then [] else Repeat(' ', missing))
      && zeros == (if !minus && zero then Repeat('0', missing) else [])
      && behind == (if minus then Repeat(' ', missing) else [])
    ensures StandardField(sign, whole + point + frac + exp, width, minus, zero) ==
            (front + (sign + (zeros + whole))) + (point + (frac + (exp + behind)))
  {
    Regrouped(front, sign, zeros, whole, point, frac, exp, behind);
    var number := whole + point + frac + exp;
    assert front == [] ==> front + (sign + (zeros + (number + behind))) == sign + (zeros + (number + behind));
    assert zeros == [] ==> zeros + (number + behind) == number + behind;
    assert behind == [] ==> number + behind == number;
    ConcatAssoc(sign, number, behind);
  }

  lemma Regrouped(a: seq<char>, b: seq<char>, c: seq<char>, d: seq<char>, e: seq<char>, f: seq<char>, g: seq<char>,
                  h: seq<char>)
    ensures a + (b + (c + ((d + e + f + g) + h))) == (a + (b + (c + d))) + (e + (f + (g + h)))
  {
  }

  /** Over the characters of the text, for every style, width and flags (a separator that
      holds a point aside): '%g' without '#' shows no fraction or one that does not end in a
      zero, and no point without a fraction; every other conversion shows all its places,
      with a point exactly before digits or with '#'. */
  lemma ShownFraction(v: real, width: int, precision: int, flags: Flags, sep: seq<char>, parts: Parts, text: seq<char>)
    requires Accuracy.Callable(precision, flags) && PartsOf(Magnitude(v), precision, flags) == Some(parts)
    requires flags.quote ==> '.' !in sep
    requires FloatText(Fin(v), width, precision, flags, sep) == Some(text)
    ensures FractionDue(FractionIn(text), parts, flags)
    ensures '.' in text <==> FractionIn(text) != [] || flags.num
  {
    var frac := FieldLayout(v, width, precision, flags, sep, parts, text);
    NoPointWhole(parts.ip, if flags.quote then sep else []);
    NoPointExponent(parts.estyle, parts.exponent, flags.up);
    FractionInField(StandardSign(true, v < 0.0, flags.plus, flags.space),
                    Grouped(Numeral(parts.ip, 10, false), if flags.quote then sep else []),
                    if frac != [] || flags.num then ['.'] else [], frac,
                    StandardExponent(parts.estyle, parts.exponent, flags.up), width, flags.minus, flags.zero);
  }

  lemma NoPointWhole(n: nat, sep: seq<char>)
    requires '.' !in sep
    ensures '.' !in Grouped(Numeral(n, 10, false), sep)
  {
    NumeralAgrees(n, 10, false);
    ReadDigits(n, 10, false);
    NoPointDigits(Numeral(n, 10, false));
    NoPointGrouped(Numeral(n, 10, false), sep);
  }

  lemma NoPointExponent(estyle: bool, exponent: int, caps: bool)
    ensures
      var exp := StandardExponent(estyle, exponent, caps);
      '.' !in exp && (exp == [] || !(0 <= DigitVal(exp[0]) < 10))
  {
  }

  // ---------- the shortest fraction ----------

  lemma {:induction false} PlacesAgain(n: nat, p: nat, q: nat)
    ensures Places(n, p + q) == Places(Places(n, p), q)
    decreases q
  {
    if q > 0 {
      PlacesAgain(n, p, q - 1);
    }
  }

  lemma {:induction false} PlacesInjective(m: nat, n: nat, p: nat)
    requires Places(m, p) == Places(n, p)
    ensures m == n
    decreases p
  {
    if p > 0 {
      PlacesInjective(m, n, p - 1);
    }
  }

  /** A fraction that does not end in a zero is the shortest of its value. */
  lemma ShortestFraction(frac: seq<char>, other: seq<char>)
    requires Decimals(frac) && Decimals(other) && (frac == [] || frac[|frac| - 1] != '0')
    requires Places(Read(frac, 10), |other|) == Places(Read(other, 10), |frac|)
    ensures |frac| <= |other|
  {
    if |other| < |frac| {
      var k := |frac| - |other|;
      PlacesAgain(Read(other, 10), k, |other|);
      PlacesInjective(Read(frac, 10), Places(Read(other, 10), k), |other|);
      var last := frac[|frac| - 1];
      assert Read(frac, 10) == 10 * Read(frac[..|frac| - 1], 10) + DigitVal(last);
      assert Places(Read(other, 10), k) == 10 * Places(Read(other, 10), k - 1);
      TenDivides(Read(frac[..|frac| - 1], 10), DigitVal(last), Places(Read(other, 10), k - 1));
    }
  }

  lemma TenDivides(a: nat, d: int, b: nat)
    requires 10 * a + d == 10 * b && 0 <= d < 10
    ensures d == 0
  {
  }
}
