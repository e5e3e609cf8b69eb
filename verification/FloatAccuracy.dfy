/** How close the printed decimal is to the value, for every style. */
module FloatAccuracy {
  import opened Base
  import opened Sink
  import opened Digits
  import opened Decimal
  import opened IntFormat
  import opened FloatFormat
  import opened FloatReads

  /** The place the value is rounded at. */
  function PlaceOf(a: real, parts: Parts): int
    requires a >= 0.0
  {
    (if parts.estyle then Exponent(a) else 0) - parts.precision
  }

  /** With or without the carry, the digits and the exponent spell the rounded value. */
  lemma ScaleSpells(a: real, estyle: bool, e: int, p: nat)
    requires a >= 0.0 && Scale(a, estyle, e, p).Some?
    ensures
      var parts := Scale(a, estyle, e, p).value;
      Shift(Spelled(parts) as real, parts.exponent - p) == RoundedAt(a, e - p)
  {
    var n := Round(Shift(a, p - e));
    assert p - e == -(e - p);
    if estyle && Shift(a, -e) < 10.0 && n == 10 * Ten(p) {
      PlacesOne(p);
      ShiftTen(Ten(p), e - p);
    } else {
      DropAndLow(n, p);
    }
  }

  /** Within half a unit of 10 to the 100, from below. */
  predicate TooNear(a: real, p: nat) {
    Pow10(MAX_EXPONENT + 1) - Shift(0.5, MAX_EXPONENT - p) <= a < Pow10(MAX_EXPONENT + 1)
  }

  /** There is such a number for every precision. */
  lemma TooNearExists(p: nat)
    ensures TooNear(Pow10(MAX_EXPONENT + 1) - Shift(0.5, MAX_EXPONENT - p), p)
  {
    ShiftBelow(0.0, 0.5, MAX_EXPONENT - p);
    ShiftZero(MAX_EXPONENT - p);
  }

  lemma RoundsTo(x: real, n: int)
    requires x < n as real
    ensures Round(x) == n <==> n as real <= x + 0.5
  {
  }

  lemma NearInPlaces(a: real, p: nat)
    requires a < Pow10(MAX_EXPONENT + 1)
    ensures TooNear(a, p) <==> (10 * Ten(p)) as real <= Shift(a, p - MAX_EXPONENT) + 0.5
    ensures Shift(a, p - MAX_EXPONENT) < (10 * Ten(p)) as real
  {
    var k := p - MAX_EXPONENT;
    var x := Shift(a, k);
    assert Shift(Pow10(MAX_EXPONENT + 1), k) == (10 * Ten(p)) as real by {
      ShiftOne(MAX_EXPONENT + 1);
      ShiftShift(1.0, MAX_EXPONENT + 1, k);
      ShiftInt(1, p + 1);
      PlacesOne(p + 1);
    }
    ShiftBelow(a, Pow10(MAX_EXPONENT + 1), k);
    ShiftShift(0.5, MAX_EXPONENT - p, k);
    ShiftSum(a, Shift(0.5, MAX_EXPONENT - p), k);
    ShiftBelow(a + Shift(0.5, MAX_EXPONENT - p), Pow10(MAX_EXPONENT + 1), k);
  }

  /** The exponent outgrows its two digits exactly next to 10 to the 100. */
  lemma ThreeDigitsIff(a: real, p: nat)
    requires a >= 0.0 && Scale(a, true, Exponent(a), p).Some?
    ensures Scale(a, true, Exponent(a), p).value.exponent == 100 <==> Exponent(a) == 99 && TooNear(a, p)
  {
    if Exponent(a) == 99 {
      ThreeDigitsAt99(a, p);
    }
  }

  lemma ThreeDigitsAt99(a: real, p: nat)
    requires a >= 0.0 && Scale(a, true, MAX_EXPONENT, p).Some?
    ensures Scale(a, true, MAX_EXPONENT, p).value.exponent == 100 <==> TooNear(a, p)
  {
    Bounds(a, MAX_EXPONENT);
    if a < Pow10(MAX_EXPONENT + 1) {
      NearInPlaces(a, p);
      RoundsTo(Shift(a, p - MAX_EXPONENT), 10 * Ten(p));
    }
  }

  lemma HalfIsSmall(e: int, p: nat)
    ensures Shift(0.5, e - p) <= Pow10(e)
  {
    ShiftOne(e);
    ShiftShift(0.5, e, -(p as int));
    ShiftBelow(0.0, 0.5, e);
    ShiftZero(e);
    HalfShrinks(Shift(0.5, e), p);
    ShiftBelow(0.5, 1.0, e);
  }

  lemma NearIsLarge(a: real, p: nat)
    requires a >= 0.0 && TooNear(a, p)
    ensures Exponent(a) == 99
  {
    HalfIsSmall(MAX_EXPONENT, p);
    Pow10Step(MAX_EXPONENT);
    ExponentUnique(a, MAX_EXPONENT, Exponent(a));
  }

  lemma {:induction false} HalfShrinks(x: real, p: nat)
    requires x >= 0.0
    ensures Shift(x, -(p as int)) <= x
  {
    if p > 0 {
      HalfShrinks(x, p - 1);
    }
  }

  // ---------- all conversions ----------

  predicate Callable(precision: int, flags: Flags) {
    precision >= -1 && (flags.typeG ==> precision != 0)
  }

  function DefaultPrecision(precision: int): nat
    requires precision >= -1
  {
    if precision == -1 then 6 else precision
  }

  /** The places of the exponent style, which '%g' tries first. */
  function WorkPrecision(precision: int, flags: Flags): nat
    requires Callable(precision, flags)
  {
    Cap(if flags.typeG then DefaultPrecision(precision) - 1 else DefaultPrecision(precision))
  }

  lemma ScalePrintable(a: real, estyle: bool, e: int, p: nat)
    requires a >= 0.0 && p <= MAX_PRECISION && -99 <= e <= 99 && (!estyle ==> e == 0)
    requires Scale(a, estyle, e, p).Some?
    ensures Printable(Scale(a, estyle, e, p).value) && Scale(a, estyle, e, p).value.estyle == estyle
  {
  }

  lemma ExponentInRange(a: real)
    requires a >= 0.0
    ensures -99 <= Exponent(a) <= 99
  {
  }

  /** Whatever the conversion, the parts come from one rounding of the value. */
  lemma PartsAreScaled(a: real, precision: int, flags: Flags)
    requires a >= 0.0 && Callable(precision, flags) && PartsOf(a, precision, flags).Some?
    ensures
      var parts := PartsOf(a, precision, flags).value;
      && Printable(parts)
      && Scale(a, parts.estyle, if parts.estyle then Exponent(a) else 0, parts.precision) == Some(parts)
  {
    ExponentInRange(a);
    var p := if precision == -1 then 6 else precision;
    if flags.typeG {
      var first := Scale(a, true, Exponent(a), Cap(p - 1)).value;
      ScalePrintable(a, true, Exponent(a), Cap(p - 1));
      if Cap(p - 1) + 1 > first.exponent >= -4 {
        ScalePrintable(a, false, 0, Cap(Cap(p - 1) - first.exponent));
      }
    } else {
      ScalePrintable(a, flags.typeE, if flags.typeE then Exponent(a) else 0, Cap(p));
    }
  }

  lemma PartsSpell(a: real, precision: int, flags: Flags)
    requires a >= 0.0 && Callable(precision, flags) && PartsOf(a, precision, flags).Some?
    ensures
      var parts := PartsOf(a, precision, flags).value;
      && Printable(parts)
      && Shift(Spelled(parts) as real, parts.exponent - parts.precision) == RoundedAt(a, PlaceOf(a, parts))
      && (parts.exponent == 100 <==> parts.estyle && TooNear(a, parts.precision))
  {
    PartsAreScaled(a, precision, flags);
    var parts := PartsOf(a, precision, flags).value;
    ScaledSpell(a, parts);
  }

  lemma ScaledSpell(a: real, parts: Parts)
    requires a >= 0.0 && Printable(parts)
    requires Scale(a, parts.estyle, if parts.estyle then Exponent(a) else 0, parts.precision) == Some(parts)
    ensures Shift(Spelled(parts) as real, parts.exponent - parts.precision) == RoundedAt(a, PlaceOf(a, parts))
    ensures parts.exponent == 100 <==> parts.estyle && TooNear(a, parts.precision)
  {
    ScaleSpells(a, parts.estyle, if parts.estyle then Exponent(a) else 0, parts.precision);
    if parts.estyle {
      ThreeDigitsIff(a, parts.precision);
      if TooNear(a, parts.precision) {
        NearIsLarge(a, parts.precision);
      }
    }
  }

  lemma {:induction false} ShiftGrows(x: real, n: nat)
    requires x > 0.0 && n > 0
    ensures Shift(x, n) > x
  {
    if n > 1 {
      ShiftGrows(x, n - 1);
    } else {
      assert Shift(x, 1) == 10.0 * Shift(x, 0);
    }
  }

  /** A hundred shown as "00" changes the number. */
  lemma HundredIsLost(n: nat, p: nat)
    requires n > 0
    ensures Shift(n as real, 0 - p) != Shift(n as real, 100 - p)
  {
    var y := Shift(n as real, 0 - p);
    ShiftShift(n as real, 0 - p, 100);
    ShiftBelow(0.0, n as real, 0 - p);
    ShiftZero(0 - p);
    ShiftGrows(y, 100);
  }

  lemma ShownIff(n: nat, exponent: int, p: nat, x: real, r: real)
    requires x == Shift(n as real, (if exponent == 100 then 0 else exponent) - p)
    requires r == Shift(n as real, exponent - p) && (exponent == 100 ==> n > 0)
    ensures x == r <==> exponent != 100
  {
    if exponent == 100 {
      HundredIsLost(n, p);
    }
  }

  lemma {:induction false} ShiftZero(e: int)
    ensures Shift(0.0, e) == 0.0
    decreases if e < 0 then -e else e
  {
    if e > 0 {
      ShiftZero(e - 1);
    } else if e < 0 {
      ShiftZero(e + 1);
    }
  }

  lemma CarriedIsPositive(a: real, precision: int, flags: Flags)
    requires a >= 0.0 && Callable(precision, flags) && PartsOf(a, precision, flags).Some?
    requires PartsOf(a, precision, flags).value.exponent == 100
    ensures Spelled(PartsOf(a, precision, flags).value) > 0
  {
    PartsAreScaled(a, precision, flags);
    ExponentInRange(a);
    PlacesOne(PartsOf(a, precision, flags).value.precision);
  }

  /** Only '%e' and '%g' round up to 10 to the 100, and then '%g' keeps the exponent style. */
  lemma NearStyle(a: real, precision: int, flags: Flags, parts: Parts)
    requires a >= 0.0 && Callable(precision, flags) && PartsOf(a, precision, flags) == Some(parts)
    ensures parts.estyle && TooNear(a, parts.precision)
            <==> (flags.typeE || flags.typeG) && TooNear(a, WorkPrecision(precision, flags))
  {
    if flags.typeG && TooNear(a, WorkPrecision(precision, flags)) {
      NearIsLarge(a, WorkPrecision(precision, flags));
      ThreeDigitsIff(a, WorkPrecision(precision, flags));
    }
  }

  lemma TextSays(v: real, width: int, precision: int, flags: Flags, sep: seq<char>, parts: Parts, x: real)
    requires Callable(precision, flags) && !flags.quote
    requires PartsOf(Magnitude(v), precision, flags) == Some(parts) && Printable(parts)
    requires x == Shift(Spelled(parts) as real, ShownExponent(parts) - parts.precision)
    ensures ReadFloat(FloatText(Fin(v), width, precision, flags, sep).value) == Signed(v < 0.0, x)
  {
    FieldReads(v < 0.0, parts, width, flags, sep, x);
  }

  lemma SpelledIff(a: real, precision: int, flags: Flags, parts: Parts, x: real, r: real)
    requires a >= 0.0 && Callable(precision, flags) && PartsOf(a, precision, flags) == Some(parts)
    requires x == Shift(Spelled(parts) as real, ShownExponent(parts) - parts.precision)
    requires r == RoundedAt(a, PlaceOf(a, parts))
    ensures Printable(parts) && (x == r <==> !(parts.estyle && TooNear(a, parts.precision)))
  {
    PartsSpell(a, precision, flags);
    if parts.exponent == 100 {
      CarriedIsPositive(a, precision, flags);
    }
    ShownIff(Spelled(parts), parts.exponent, parts.precision, x, r);
  }

  /** For every finite value, width, precision and flags (but the quote): if the
      conversion does not overflow, its text reads back as the value rounded at the
      last place, unless '%e' or '%g' rounds it up to 10 to the 100. */
  lemma FloatReadsBackIff(v: real, width: int, precision: int, flags: Flags, sep: seq<char>, parts: Parts)
    requires Callable(precision, flags) && !flags.quote
    requires PartsOf(Magnitude(v), precision, flags) == Some(parts)
    ensures
      var text := FloatText(Fin(v), width, precision, flags, sep).value;
      ReadFloat(text) == Signed(v < 0.0, RoundedAt(Magnitude(v), PlaceOf(Magnitude(v), parts)))
      <==> !((flags.typeE || flags.typeG) && TooNear(Magnitude(v), WorkPrecision(precision, flags)))
  {
    var x := Shift(Spelled(parts) as real, ShownExponent(parts) - parts.precision);
    NearStyle(Magnitude(v), precision, flags, parts);
    SpelledIff(Magnitude(v), precision, flags, parts, x, RoundedAt(Magnitude(v), PlaceOf(Magnitude(v), parts)));
    TextSays(v, width, precision, flags, sep, parts, x);
  }

  lemma SignedDistance(v: real, x: real, h: real)
    requires -h <= x - Magnitude(v) <= h
    ensures -h <= Signed(v < 0.0, x) - v <= h
  {
  }

  predicate Within(x: real, v: real, h: real) {
    -h <= x - v <= h
  }

  /** So the printed decimal is within half a unit of the last printed place. */
  lemma TextWithinHalf(v: real, width: int, precision: int, flags: Flags, sep: seq<char>, parts: Parts,
                       text: seq<char>, place: int)
    requires Callable(precision, flags) && !flags.quote
    requires PartsOf(Magnitude(v), precision, flags) == Some(parts)
    requires !((flags.typeE || flags.typeG) && TooNear(Magnitude(v), WorkPrecision(precision, flags)))
    requires FloatText(Fin(v), width, precision, flags, sep) == Some(text) && PlaceOf(Magnitude(v), parts) == place
    ensures Within(ReadFloat(text), v, Shift(0.5, place))
  {
    FloatReadsBackIff(v, width, precision, flags, sep, parts);
    WithinHalfUnit(Magnitude(v), place);
    SignedDistance(v, RoundedAt(Magnitude(v), place), Shift(0.5, place));
  }

  lemma FixedParts(a: real, precision: int, flags: Flags, p: nat)
    requires a >= 0.0 && Callable(precision, flags) && !flags.typeE && !flags.typeG
    requires p == Cap(DefaultPrecision(precision))
    ensures PartsOf(a, precision, flags).Some? <==> a < UINTMAX_MAX as real
    ensures
      var parts := PartsOf(a, precision, flags);
      parts.Some? ==> !parts.value.estyle && PlaceOf(a, parts.value) == 0 - p
  {
  }

  /** '%f' works exactly below UINTMAX_MAX, and is then within half a unit of the
      last of the places asked for, of which it shows at most 19. */
  lemma FixedWithinHalf(v: real, width: int, precision: int, flags: Flags, sep: seq<char>, p: nat)
    requires Callable(precision, flags) && !flags.typeE && !flags.typeG && !flags.quote
    requires p == Cap(DefaultPrecision(precision))
    ensures
      var text := FloatText(Fin(v), width, precision, flags, sep);
      if Magnitude(v) < UINTMAX_MAX as real then text.Some? && Within(ReadFloat(text.value), v, Shift(0.5, 0 - p))
      else text.None?
  {
    FixedParts(Magnitude(v), precision, flags, p);
    var parts := PartsOf(Magnitude(v), precision, flags);
    if parts.Some? {
      TextWithinHalf(v, width, precision, flags, sep, parts.value,
                     FloatText(Fin(v), width, precision, flags, sep).value, 0 - p);
    }
  }

  // ---------- one digit before the point ----------

  lemma {:induction false} TenBetween(x: real, p: nat)
    ensures x >= 1.0 ==> Round(Shift(x, p)) >= Ten(p)
    ensures x < 10.0 ==> Round(Shift(x, p)) <= 10 * Ten(p)
  {
    ShiftInt(1, p);
    ShiftBelow(x, 1.0, p);
    ShiftInt(10, p);
    PlacesOne(p);
    ShiftBelow(x, 10.0, p);
  }

  lemma DigitBetween(n: nat, p: nat)
    requires Ten(p) <= n < 10 * Ten(p)
    ensures 1 <= Drop(n, p) <= 9
  {
    DropAndLow(n, p);
    PlacesOne(p);
    PlacesSum(Drop(n, p), 1, p);
    PlacesLess(1, Drop(n, p) + 1, p);
    PlacesLess(Drop(n, p), 10, p);
  }

  lemma OneDigitOf(u: real, e: int, p: nat)
    requires 1.0 <= u < 10.0
    ensures
      var parts := Divide(u, Round(Shift(u, p)), true, e, p);
      parts.Some? && 1 <= parts.value.ip <= 9 && parts.value.estyle
  {
    TenBetween(u, p);
    var n := Round(Shift(u, p));
    if n != 10 * Ten(p) {
      DigitBetween(n, p);
    }
  }

  /** An exponent style has exactly one integer digit, not a zero, after the carry step. */
  lemma OneDigit(a: real, p: nat)
    requires Pow10(MIN_EXPONENT) <= a < Pow10(MAX_EXPONENT + 1)
    ensures
      var parts := Scale(a, true, Exponent(a), p);
      parts.Some? && 1 <= parts.value.ip <= 9 && parts.value.estyle
  {
    var e := Exponent(a);
    Bounds(a, e);
    OneDigitOf(Shift(a, -e), e, p);
    ShiftShift(a, -e, p);
  }

  lemma ScientificPlace(a: real, precision: int, flags: Flags, parts: Parts)
    requires a >= 0.0 && Callable(precision, flags) && flags.typeE && !flags.typeG
    requires PartsOf(a, precision, flags) == Some(parts)
    ensures PlaceOf(a, parts) == Exponent(a) - WorkPrecision(precision, flags)
  {
  }

  /** '%e' of anything that does not overflow or round up to 10 to the 100 is within half
      a unit of the last place of its exponent. */
  lemma ScientificWithinHalf(v: real, width: int, precision: int, flags: Flags, sep: seq<char>, parts: Parts,
                             text: seq<char>)
    requires Callable(precision, flags) && flags.typeE && !flags.typeG && !flags.quote
    requires PartsOf(Magnitude(v), precision, flags) == Some(parts)
    requires !TooNear(Magnitude(v), WorkPrecision(precision, flags))
    requires FloatText(Fin(v), width, precision, flags, sep) == Some(text)
    ensures Within(ReadFloat(text), v, Shift(0.5, Exponent(Magnitude(v)) - WorkPrecision(precision, flags)))
  {
    ScientificPlace(Magnitude(v), precision, flags, parts);
    TextWithinHalf(v, width, precision, flags, sep, parts, text, PlaceOf(Magnitude(v), parts));
  }

  // ---------- overflow ----------

  lemma FarBelow(a: real, e: int)
    requires e < MAX_EXPONENT && a < Pow10(e + 1)
    ensures a < Shift(UINTMAX_MAX as real, MAX_EXPONENT)
  {
    Pow10Grows(e + 1, MAX_EXPONENT);
    ShiftOne(MAX_EXPONENT);
    ShiftBelow(UINTMAX_MAX as real, 1.0, MAX_EXPONENT);
  }

  lemma AtTheTop(a: real)
    ensures Shift(a, -MAX_EXPONENT) >= UINTMAX_MAX as real <==> a >= Shift(UINTMAX_MAX as real, MAX_EXPONENT)
  {
    ShiftShift(UINTMAX_MAX as real, MAX_EXPONENT, -MAX_EXPONENT);
    ShiftBelow(a, Shift(UINTMAX_MAX as real, MAX_EXPONENT), -MAX_EXPONENT);
  }

  lemma ScaleOverflowIff(a: real, p: nat)
    requires a >= 0.0
    ensures Scale(a, true, Exponent(a), p).None? <==> a >= Shift(UINTMAX_MAX as real, MAX_EXPONENT)
  {
    var e := Exponent(a);
    if e == MAX_EXPONENT {
      AtTheTop(a);
    } else {
      Bounds(a, e);
      FarBelow(a, e);
    }
  }

  /** '%e' overflows exactly from UINTMAX_MAX times 10 to the 99 on. */
  lemma ScientificOverflowIff(a: real, precision: int, flags: Flags)
    requires a >= 0.0 && Callable(precision, flags) && flags.typeE && !flags.typeG
    ensures PartsOf(a, precision, flags).None? <==> a >= Shift(UINTMAX_MAX as real, MAX_EXPONENT)
  {
    ScaleOverflowIff(a, WorkPrecision(precision, flags));
  }

  // ---------- '%g' ----------

  /** The exponent X that '%e' with one place less would print. */
  function ExponentX(a: real, precision: int): Option<int>
    requires a >= 0.0 && precision >= -1 && precision != 0
  {
    var first := Scale(a, true, Exponent(a), Cap(DefaultPrecision(precision) - 1));
    if first.None? then None else Some(first.value.exponent)
  }

  /** '%g' takes the fixed style where min(P, 20) > X >= -4, and then P - 1 - X places, of
      which it shows at most 19; otherwise P - 1 places, also at most 19. */
  lemma GeneralParts(a: real, precision: int, flags: Flags, parts: Parts, x: int)
    requires a >= 0.0 && Callable(precision, flags) && flags.typeG
    requires PartsOf(a, precision, flags) == Some(parts) && ExponentX(a, precision) == Some(x)
    ensures
      var p := DefaultPrecision(precision);
      && (!parts.estyle <==> Min(p, 20) > x >= -4)
      && parts.precision == (if parts.estyle then Cap(p - 1) else Cap(Cap(p - 1) - x))
      && (parts.estyle ==> parts.exponent == x && x - 1 <= Exponent(a) <= x)
      && (!parts.estyle ==> parts.exponent == 0)
  {
  }

  /** The style is the one of paragraph 8 (fixed where P > X >= -4) if and only if P is
      not above 20 with X between 20 and P. */
  lemma GeneralStyleIff(a: real, precision: int, flags: Flags, parts: Parts, x: int)
    requires a >= 0.0 && Callable(precision, flags) && flags.typeG
    requires PartsOf(a, precision, flags) == Some(parts) && ExponentX(a, precision) == Some(x)
    ensures (!parts.estyle <==> DefaultPrecision(precision) > x >= -4)
            <==> !(DefaultPrecision(precision) > x > 19)
  {
    GeneralParts(a, precision, flags, parts, x);
  }

  /** The place of the last digit, before zeros are stripped. */
  function LastPlace(parts: Parts): int {
    parts.exponent - parts.precision
  }

  /** The precisions P and exponents X for which '%g' can show P significant digits. */
  predicate ShowsAll(p: nat, x: int) {
    p <= 20 && (p > x >= -4 ==> p - 1 - x <= 19)
  }

  /** '%g' shows P significant digits if and only if P <= 20 and, in the fixed style,
      P - 1 - X <= 19. */
  lemma SignificantIff(a: real, precision: int, flags: Flags, parts: Parts, x: int)
    requires a >= 0.0 && Callable(precision, flags) && flags.typeG
    requires PartsOf(a, precision, flags) == Some(parts) && ExponentX(a, precision) == Some(x)
    ensures LastPlace(parts) == x - (DefaultPrecision(precision) - 1) <==> ShowsAll(DefaultPrecision(precision), x)
  {
    GeneralParts(a, precision, flags, parts, x);
  }

  lemma GeneralPlace(a: real, precision: int, flags: Flags, parts: Parts, x: int)
    requires a >= 0.0 && Callable(precision, flags) && flags.typeG
    requires PartsOf(a, precision, flags) == Some(parts) && ExponentX(a, precision) == Some(x)
    requires ShowsAll(DefaultPrecision(precision), x)
    ensures PlaceOf(a, parts) <= x - (DefaultPrecision(precision) - 1)
  {
    GeneralParts(a, precision, flags, parts, x);
  }

  /** Then it is within half a unit of the P-th significant digit, in either style. */
  lemma GeneralWithinHalf(v: real, width: int, precision: int, flags: Flags, sep: seq<char>, parts: Parts, x: int,
                          text: seq<char>)
    requires Callable(precision, flags) && flags.typeG && !flags.quote
    requires PartsOf(Magnitude(v), precision, flags) == Some(parts) && ExponentX(Magnitude(v), precision) == Some(x)
    requires !TooNear(Magnitude(v), WorkPrecision(precision, flags))
    requires ShowsAll(DefaultPrecision(precision), x)
    requires FloatText(Fin(v), width, precision, flags, sep) == Some(text)
    ensures Within(ReadFloat(text), v, Shift(0.5, x - (DefaultPrecision(precision) - 1)))
  {
    var last := x - (DefaultPrecision(precision) - 1);
    assert PlaceOf(Magnitude(v), parts) <= last by {
      GeneralPlace(Magnitude(v), precision, flags, parts, x);
    }
    TextWithin(v, width, precision, flags, sep, parts, text, last);
  }

  /** And so at any coarser place. */
  lemma TextWithin(v: real, width: int, precision: int, flags: Flags, sep: seq<char>, parts: Parts,
                   text: seq<char>, coarser: int)
    requires Callable(precision, flags) && !flags.quote
    requires PartsOf(Magnitude(v), precision, flags) == Some(parts)
    requires !((flags.typeE || flags.typeG) && TooNear(Magnitude(v), WorkPrecision(precision, flags)))
    requires FloatText(Fin(v), width, precision, flags, sep) == Some(text) && PlaceOf(Magnitude(v), parts) <= coarser
    ensures Within(ReadFloat(text), v, Shift(0.5, coarser))
  {
    TextWithinHalf(v, width, precision, flags, sep, parts, text, PlaceOf(Magnitude(v), parts));
    Widen(ReadFloat(text), v, PlaceOf(Magnitude(v), parts), coarser);
  }

  lemma Widen(shown: real, v: real, place: int, coarser: int)
    requires place <= coarser && Within(shown, v, Shift(0.5, place))
    ensures Within(shown, v, Shift(0.5, coarser))
  {
    ShiftCoarser(0.5, place, coarser);
  }

  /** A value for which 17 digits are not enough of what is shown. */
  const SHORT_VALUE: real := 0.00010000000000000004

  const G_FLAGS := NoFlags.(typeG := true)

  lemma FourPlaces(x: real, e: int)
    ensures Shift(x, e + 4) == 10000.0 * Shift(x, e)
  {
    ShiftStep(x, e);
    ShiftStep(x, e + 1);
    ShiftStep(x, e + 2);
    ShiftStep(x, e + 3);
  }

  lemma SixteenPlaces(x: real, e: int)
    ensures Shift(x, e + 16) == 10000000000000000.0 * Shift(x, e)
  {
    FourPlaces(x, e);
    FourPlaces(x, e + 4);
    FourPlaces(x, e + 8);
    FourPlaces(x, e + 12);
  }

  lemma ShortExponent()
    ensures Exponent(SHORT_VALUE) == -4
  {
    ShiftOne(-4);
    ShiftOne(-3);
    FourPlaces(1.0, -4);
    ShiftStep(1.0, -4);
    ExponentUnique(SHORT_VALUE, -4, Exponent(SHORT_VALUE));
  }

  lemma ShortScaled()
    ensures Shift(SHORT_VALUE, 4) == 1.0000000000000004 && Round(Shift(SHORT_VALUE, 20)) == 1_0000_0000_0000_0004
  {
    FourPlaces(SHORT_VALUE, 0);
    SixteenPlaces(SHORT_VALUE, 4);
  }

  lemma ShortParts()
    ensures ExponentX(SHORT_VALUE, 17) == Some(-4)
    ensures PartsOf(SHORT_VALUE, 17, G_FLAGS).Some?
    ensures
      var parts := PartsOf(SHORT_VALUE, 17, G_FLAGS).value;
      !parts.estyle && parts.precision == 19
  {
    ShortExponent();
    ShortScaled();
    PowersOfTen();
  }

  lemma ShortRounded()
    ensures RoundedAt(SHORT_VALUE, -19) == 0.0001
    ensures Shift(0.5, -20) == 0.000000000000000000005
  {
    FourPlaces(SHORT_VALUE, 0);
    SixteenPlaces(SHORT_VALUE, 4);
    ShiftStep(SHORT_VALUE, 19);
    assert Shift(SHORT_VALUE, 19) == 1000000000000000.4;
    var n := 1000000000000000.0;
    SixteenPlaces(n, -16);
    ShiftStep(n, -17);
    ShiftStep(n, -18);
    ShiftStep(n, -19);
    FourPlaces(0.5, -4);
    SixteenPlaces(0.5, -20);
  }

  lemma ShortPrints() returns (text: seq<char>)
    ensures FloatText(Fin(SHORT_VALUE), 0, 17, G_FLAGS, []) == Some(text)
    ensures ExponentX(SHORT_VALUE, 17) == Some(-4)
  {
    ShortParts();
    text := FloatText(Fin(SHORT_VALUE), 0, 17, G_FLAGS, []).value;
  }

  lemma ShortText(text: seq<char>)
    requires FloatText(Fin(SHORT_VALUE), 0, 17, G_FLAGS, []) == Some(text)
    ensures ReadFloat(text) == 0.0001
  {
    ShortParts();
    ShortRounded();
    var parts := PartsOf(SHORT_VALUE, 17, G_FLAGS).value;
    NearStyle(SHORT_VALUE, 17, G_FLAGS, parts);
    FloatReadsBackIff(SHORT_VALUE, 0, 17, G_FLAGS, [], parts);
  }

  /** '%.17g' of 0.00010000000000000004 prints 0.0001: nineteen places are not the
      twenty that its 17 significant digits take. */
  lemma GeneralFallsShort() returns (text: seq<char>)
    ensures FloatText(Fin(SHORT_VALUE), 0, 17, G_FLAGS, []) == Some(text)
    ensures ExponentX(SHORT_VALUE, 17) == Some(-4) && !ShowsAll(17, -4)
    ensures ReadFloat(text) == 0.0001 && !Within(ReadFloat(text), SHORT_VALUE, Shift(0.5, -4 - 16))
  {
    text := ShortPrints();
    ShortText(text);
    ShortRounded();
    assert SHORT_VALUE - 0.0001 > 0.000000000000000000005;
  }

  lemma LargeExponent(a: real)
    requires a >= UINTMAX_MAX as real
    ensures Exponent(a) >= 19
  {
    assert Pow10(19) < UINTMAX_MAX as real by {
      PowerFits(19);
      Pow10OfNat(19);
    }
    if Exponent(a) < 19 {
      Pow10Grows(Exponent(a) + 1, 19);
    }
  }

  /** '%g' overflows exactly where '%e' does, or where 20 or more digits of a value from
      UINTMAX_MAX on call for the fixed style. */
  lemma GeneralOverflowIff(a: real, precision: int, flags: Flags)
    requires a >= 0.0 && Callable(precision, flags) && flags.typeG
    ensures PartsOf(a, precision, flags).None? <==>
            || a >= Shift(UINTMAX_MAX as real, MAX_EXPONENT)
            || (a >= UINTMAX_MAX as real && DefaultPrecision(precision) >= 20 && ExponentX(a, precision) == Some(19))
  {
    var q := Cap(DefaultPrecision(precision) - 1);
    ScaleOverflowIff(a, q);
    if a < Shift(UINTMAX_MAX as real, MAX_EXPONENT) {
      var x := Scale(a, true, Exponent(a), q).value.exponent;
      GeneralChoice(a, precision, flags, q, x);
      if a >= UINTMAX_MAX as real {
        LargeExponent(a);
        CarryRaises(a, q);
      }
    }
  }

  lemma CarryRaises(a: real, q: nat)
    requires a >= 0.0 && Scale(a, true, Exponent(a), q).Some?
    ensures Scale(a, true, Exponent(a), q).value.exponent >= Exponent(a)
  {
  }

  lemma GeneralChoice(a: real, precision: int, flags: Flags, q: nat, x: int)
    requires a >= 0.0 && Callable(precision, flags) && flags.typeG && q == Cap(DefaultPrecision(precision) - 1)
    requires Scale(a, true, Exponent(a), q).Some? && x == Scale(a, true, Exponent(a), q).value.exponent
    ensures ExponentX(a, precision) == Some(x)
    ensures PartsOf(a, precision, flags).None? <==> q + 1 > x >= -4 && a >= UINTMAX_MAX as real
  {
  }

  lemma {:induction false} ShiftCoarser(x: real, e: int, f: int)
    requires x >= 0.0 && e <= f
    ensures Shift(x, e) <= Shift(x, f)
    decreases f - e
  {
    if e < f {
      ShiftStep(x, e);
      ShiftCoarser(x, e + 1, f);
    }
  }

  // ---------- length ----------

  /** Digits, separators, point, fraction and exponent. */
  function NaturalLength(parts: Parts, flags: Flags, sep: seq<char>): int {
    var digits, frac := |DigitsOf(parts.ip, 10, false)|, |FracShown(parts, flags)|;
    digits + (if flags.quote then NumSeps(digits) * |sep| else 0)
    + (if frac > 0 || flags.num then 1 else 0) + frac + (if parts.estyle then 4 else 0)
  }

  lemma NumberLength(parts: Parts, flags: Flags, sep: seq<char>)
    ensures |Number(parts, flags, sep)| == NaturalLength(parts, flags, sep)
  {
    var digits := DigitsOf(parts.ip, 10, false);
    Separated(digits, sep, flags.quote, if flags.quote then NumSeps(|digits|) * |sep| else 0);
  }

  /** The text fills the width, or is as long as sign, digits, separators, point,
      fraction and exponent need; separators take what getnumsep announces. */
  lemma FloatLength(v: real, width: int, precision: int, flags: Flags, sep: seq<char>, parts: Parts, text: seq<char>)
    requires Callable(precision, flags) && PartsOf(Magnitude(v), precision, flags) == Some(parts)
    requires FloatText(Fin(v), width, precision, flags, sep) == Some(text)
    ensures |text| == Max(width, |SignChars(v < 0.0, flags)| + NaturalLength(parts, flags, sep))
  {
    NumberLength(parts, flags, sep);
  }

  /** '%f' and '%e' show the digits asked for behind the point if and only if these are
      at most 19. */
  lemma FractionLengthIff(a: real, precision: int, flags: Flags, parts: Parts)
    requires a >= 0.0 && Callable(precision, flags) && !flags.typeG && PartsOf(a, precision, flags) == Some(parts)
    ensures |FracShown(parts, flags)| == DefaultPrecision(precision) <==> DefaultPrecision(precision) <= 19
  {
    PartsAreScaled(a, precision, flags);
    FractionReads(parts.fp, parts.precision);
  }
}
