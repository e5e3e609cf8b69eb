/** fmtflt of lib/snprintf.c with exact reals and a 64-bit UINTMAX_T: the text of
    a floating conversion, and the code that emits it. */
module FloatFormat {
  import opened Base
  import opened Sink
  import opened Digits
  import opened Decimal
  import opened IntFormat
  import opened StandardInt

  datatype FVal = NaN | Inf(neg: bool) | Fin(v: real)

  // ---------- integer part, fraction and exponent ----------

  /** What gets printed: an integer part, a fraction of `precision` digits, an exponent. */
  datatype Parts = Parts(estyle: bool, ip: nat, fp: nat, precision: nat, exponent: int)

  /** Digits past the point that a 64-bit fraction can hold. */
  const MAX_PRECISION := 19

  function Cap(precision: nat): (p: nat)
    ensures p <= MAX_PRECISION
  {
    Min(precision, MAX_PRECISION)
  }

  /** A scaled magnitude and the integer `n` it rounds to at the last place: its last
      digits are the fraction; None where the integer part would overflow. A significand that
      rounds up to ten becomes one, with the next exponent. */
  function Divide(u: real, n: nat, estyle: bool, e: int, p: nat): (r: Option<Parts>)
    ensures r.Some? ==> r.value.precision == p && r.value.fp < Ten(p)
  {
    if u >= UINTMAX_MAX as real then None
    else if estyle && u < 10.0 && n == 10 * Ten(p) then Some(Parts(true, 1, 0, p, e + 1))
    else Some(Parts(estyle, Drop(n, p), Low(n, p), p, e))
  }

  /** The magnitude with its point moved `e` places left, rounded at place `p`:
      round first, then divide. */
  function Scale(a: real, estyle: bool, e: int, p: nat): (r: Option<Parts>)
    requires a >= 0.0
    ensures r.Some? ==> r.value.precision == p && r.value.fp < Ten(p)
  {
    Divide(Shift(a, -e), Round(Shift(a, p - e)), estyle, e, p)
  }

  /** The style and precision of each conversion. '%g' first looks at what '%e'
      would print, and takes the fixed style where P > X >= -4. */
  function PartsOf(a: real, precision: int, flags: Flags): (r: Option<Parts>)
    requires a >= 0.0 && precision >= -1 && (flags.typeG ==> precision != 0)
  {
    var p := if precision == -1 then 6 else precision;
    if flags.typeG then
      var first := Scale(a, true, Exponent(a), Cap(p - 1));
      if first.None? then None
      else
        var x := first.value.exponent;
        if Cap(p - 1) + 1 > x >= -4 then Scale(a, false, 0, Cap(Cap(p - 1) - x)) else first
    else if flags.typeE then Scale(a, true, Exponent(a), Cap(p))
    else Scale(a, false, 0, Cap(p))
  }

  lemma PowersOfTen()
    ensures Pow(10, 2) == 100 && Pow(10, 16) == 1_0000_0000_0000_0000
  {
    assert Pow(10, 2) == 100 by { assert Pow(10, 1) == 10 * Pow(10, 0); }
    PowStep(10, 2, 2);
    assert Pow(10, 4) == 10000;
    PowStep(10, 4, 4);
    assert Pow(10, 8) == 1_0000_0000;
    PowStep(10, 8, 8);
  }

  lemma PowerFits(p: nat)
    requires p <= MAX_PRECISION
    ensures Ten(p) < UINTMAX_MAX
  {
    PowersOfTen();
    PowStep(10, 16, 2);
    assert Pow(10, 19) == 10 * Pow(10, 18);
    Pow10OfNat(p);
    Pow10OfNat(19);
    Pow10Grows(p, 19);
  }

  /** Rounding commutes with adding an integer. */
  lemma RoundShift(x: real, k: int)
    ensures Round(k as real + x) == k + Round(x)
  {
  }

  /** Cutting first and rounding the fraction is rounding first. */
  lemma RoundParts(u: real, ip: nat, p: nat)
    requires u >= 0.0 && ip == u.Floor
    ensures Round(Shift(u, p)) == Places(ip, p) + Round(Shift(u - ip as real, p))
    ensures Shift(u - ip as real, p) < Ten(p) as real
  {
    var f := u - ip as real;
    assert u == ip as real + f;
    ShiftSum(ip as real, f, p);
    ShiftInt(ip, p);
    RoundShift(Shift(f, p), Places(ip, p));
    ShiftInt(1, p);
    PlacesOne(p);
    ShiftBelow(f, 1.0, p);
  }

  /** A fraction that rounds up to a whole carries into the integer part. */
  lemma Carry(n: int, ip: nat, fp: nat, p: nat, u: real)
    requires n == Places(ip, p) + fp && fp <= Ten(p) && ip == u.Floor && u >= 0.0
    ensures fp == Ten(p) ==> Drop(n, p) == ip + 1 && Low(n, p) == 0
    ensures fp < Ten(p) ==> Drop(n, p) == ip && Low(n, p) == fp
    ensures u < 10.0 && n == 10 * Ten(p) <==> ip == 9 && fp == Ten(p)
  {
    PlacesOne(p);
    PlacesSum(ip, 1, p);
    if fp == Ten(p) {
      DropUnique(n, ip + 1, 0, p);
      PlacesLess(ip + 1, 10, p);
    } else {
      DropUnique(n, ip, fp, p);
      PlacesLess(ip + 1, 10, p);
      PlacesLess(10, ip + 1, p);
    }
  }

  /** From `again:` to the check of the style: one rounding of the value. */
  method ScaleValue(a: real, estyle: bool, e: int, precision: nat)
    returns (overflow: bool, ip: nat, fp: nat, exponent: int)
    requires a >= 0.0 && precision <= MAX_PRECISION && (!estyle ==> e == 0)
    ensures overflow <==> Scale(a, estyle, e, precision) == None
    ensures !overflow ==>
              Scale(a, estyle, e, precision) == Some(Parts(estyle, ip, fp, precision, exponent)) && ip <= UINTMAX_MAX
  {
    var u := a;
    if estyle {
      u := DivideByPower(a, e);
    }
    ShiftShift(a, -e, precision);
    overflow, ip, fp, exponent := DivideValue(u, estyle, e, precision);
  }

  method DivideByPower(a: real, e: int) returns (u: real)
    ensures u == Shift(a, -e)
  {
    var power := MyPow10(e);
    ShiftDivides(a, e);
    u := a / power;
  }

  method DivideValue(u: real, estyle: bool, e: int, precision: nat)
    returns (overflow: bool, ip: nat, fp: nat, exponent: int)
    requires u >= 0.0 && precision <= MAX_PRECISION
    ensures
      var r := Divide(u, Round(Shift(u, precision)), estyle, e, precision);
      if overflow then r == None else r == Some(Parts(estyle, ip, fp, precision, exponent)) && ip <= UINTMAX_MAX
  {
    overflow, ip, fp, exponent := false, 0, 0, e;
    ip := Cast(u);
    if ip == UINTMAX_MAX {
      overflow := true;
      return;
    }
    var mask, carried;
    mask, fp := RoundFraction(u, ip, precision);
    ip, fp, carried := CarryOver(ip, fp, mask, u, Round(Shift(u, precision)), precision);
    if carried && estyle && ip == 10 {
      ip, exponent := 1, exponent + 1;
    }
  }

  /** The fraction times the mask, rounded. */
  method RoundFraction(u: real, whole: nat, precision: nat) returns (mask: nat, fp: nat)
    requires 0.0 <= u < UINTMAX_MAX as real && whole == u.Floor && precision <= MAX_PRECISION
    ensures mask == Ten(precision) && fp <= mask
    ensures Round(Shift(u, precision)) == Places(whole, precision) + fp
  {
    mask := Mask(precision);
    RoundParts(u, whole, precision);
    var fraction := TimesMask(mask, u - whole as real, precision);
    fp := MyRound(fraction);
  }

  method TimesMask(mask: nat, fraction: real, ghost precision: nat) returns (r: real)
    requires mask == Ten(precision)
    ensures r == Shift(fraction, precision)
  {
    Pow10OfNat(precision);
    ShiftMul(fraction, precision);
    r := mask as real * fraction;
  }

  method Mask(precision: nat) returns (mask: nat)
    requires precision <= MAX_PRECISION
    ensures mask == Ten(precision) < UINTMAX_MAX
  {
    var power := MyPow10(precision);
    Pow10OfNat(precision);
    mask := power.Floor;
    PowerFits(precision);
  }

  ghost predicate IsCut(u: real, n: nat, p: nat, ip: nat, fp: nat, carried: bool) {
    && ip == Drop(n, p) && fp == Low(n, p)
    && (u < 10.0 && n == 10 * Ten(p) <==> carried && ip == 10) && (carried ==> fp == 0)
  }

  method CarryOver(whole: nat, rounded: nat, mask: nat, ghost u: real, ghost n: nat, ghost p: nat)
    returns (ip: nat, fp: nat, carried: bool)
    requires u >= 0.0 && whole == u.Floor && mask == Ten(p) && rounded <= mask && n == Places(whole, p) + rounded
    ensures IsCut(u, n, p, ip, fp, carried) && ip <= whole + 1
  {
    Carry(n, whole, rounded, p, u);
    ip, fp, carried := whole, rounded, rounded >= mask;
    if carried {
      ip, fp := ip + 1, 0;
    }
  }

  // ---------- the text ----------

  function SignChars(neg: bool, flags: Flags): (s: seq<char>)
    ensures |s| <= 1
  {
    if neg then "-" else if flags.plus then "+" else if flags.space then " " else ""
  }

  /** The fraction's digits, leading zeros included. */
  function FracDigits(fp: nat, p: nat): seq<char> {
    var ds := if fp == 0 then [] else DigitsOf(fp, 10, false);
    Repeat('0', p - |ds|) + ds
  }

  function StripZeros(s: seq<char>): (r: seq<char>)
    ensures r <= s && (r != [] ==> r[|r| - 1] != '0')
  {
    if s != [] && s[|s| - 1] == '0' then StripZeros(s[..|s| - 1]) else s
  }

  /** '%g' without '#' drops the zeros at the end of the fraction. */
  function FracShown(parts: Parts, flags: Flags): seq<char> {
    var digits := FracDigits(parts.fp, parts.precision);
    if flags.typeG && !flags.num then StripZeros(digits) else digits
  }

  /** The exponent's last two digits. */
  function TwoDigits(n: nat): seq<char> {
    [DigitChar(n / 10 % 10, false), DigitChar(n % 10, false)]
  }

  function ExpShown(parts: Parts, flags: Flags): seq<char> {
    if !parts.estyle then []
    else [if flags.up then 'E' else 'e', if parts.exponent < 0 then '-' else '+'] + TwoDigits(Abs(parts.exponent))
  }

  function PointShown(frac: seq<char>, flags: Flags): seq<char> {
    if |frac| > 0 || flags.num then "." else ""
  }

  /** Everything behind the sign. */
  function Number(parts: Parts, flags: Flags, sep: seq<char>): seq<char> {
    var frac := FracShown(parts, flags);
    Grouped(DigitsOf(parts.ip, 10, false), if flags.quote then sep else [])
    + PointShown(frac, flags) + frac + ExpShown(parts, flags)
  }

  /** A sign and a number in a field: blanks in front or behind, or zeros between. */
  function InField(sign: seq<char>, number: seq<char>, width: int, flags: Flags): (r: seq<char>)
    ensures |r| == Max(width, |sign| + |number|)
  {
    var missing := width - |sign| - |number|;
    if flags.minus then sign + number + Repeat(' ', missing)
    else if flags.zero then sign + Repeat('0', missing) + number
    else Repeat(' ', missing) + sign + number
  }

  function Word(v: FVal, flags: Flags): seq<char> {
    if v == NaN then (if flags.up then "NAN" else "nan") else (if flags.up then "INF" else "inf")
  }

  function Magnitude(v: real): (a: real)
    ensures a >= 0.0
  {
    if v >= 0.0 then v else -v
  }

  predicate Negative(v: FVal) {
    match v
    case NaN => false
    case Inf(neg) => neg
    case Fin(x) => x < 0.0
  }

  /** The text of a floating conversion; None is overflow. */
  function FloatText(v: FVal, width: int, precision: int, flags: Flags, sep: seq<char>): Option<seq<char>>
    requires precision >= -1 && (flags.typeG ==> precision != 0)
  {
    var sign := SignChars(Negative(v), flags);
    match v
    case Fin(x) =>
      var parts := PartsOf(Magnitude(x), precision, flags);
      if parts.None? then None else Some(InField(sign, Number(parts.value, flags, sep), width, flags))
    case _ => Some(Padded(sign + Word(v, flags), width, flags.minus))
  }

  // ---------- the code ----------

  /** A loop that prints a buffer from a position down to another. */
  method EmitDown(out: Out, buf: array<char>, hi: nat, lo: nat)
    requires out.Valid() && buf != out.str && hi <= buf.Length
    modifies out, out.str
    ensures out.Valid()
    ensures out.text == old(out.text) + if lo <= hi then Reversed(buf[lo..hi]) else []
  {
    var pos := hi;
    ghost var all := buf[..];
    while pos > lo
      invariant (pos == hi || lo <= pos <= hi) && buf[..] == all
      invariant out.Valid() && out.text == old(out.text) + Reversed(all[pos..hi])
    {
      pos := pos - 1;
      ghost var before := out.text;
      out.Emit(buf[pos]);
      assert Reversed(all[pos..hi]) == Reversed(all[pos + 1..hi]) + [all[pos]];
    }
  }

  lemma LastTwo(n: nat)
    ensures
      var r := Reversed(DigitsOf(n, 10, false));
      if n < 10 then |r| == 1 && r == [TwoDigits(n)[1]] && TwoDigits(n)[0] == '0'
      else |r| >= 2 && r[..2] == [TwoDigits(n)[1], TwoDigits(n)[0]]
  {
    LastTwoOf(n, n % 10, n / 10);
  }

  lemma LastTwoOf(n: nat, d: int, q: int)
    requires d == n % 10 && q == n / 10
    ensures
      var r := Reversed(DigitsOf(n, 10, false));
      && r[0] == DigitChar(d, false)
      && (if q == 0 then |r| == 1 else |r| >= 2 && r[1] == DigitChar(q % 10, false))
  {
    LastDigit(n, 10, false, d, q);
    if q != 0 {
      LastDigit(q, 10, false, q % 10, q / 10);
      var r := Reversed(DigitsOf(n, 10, false));
      assert r[1] == r[1..][0];
    }
  }

  /** The last two digits of the exponent, the lower first. */
  method ExponentDigits(magnitude: nat, econvert: array<char>) returns (epos: nat)
    requires econvert.Length == 4
    modifies econvert
    ensures epos == 2 && econvert[0] == TwoDigits(magnitude)[1] && econvert[1] == TwoDigits(magnitude)[0]
  {
    epos := Convert(magnitude, econvert, 2, 10, false);
    LastTwo(magnitude);
    assert econvert[0] == econvert[..epos][0];
    assert epos == 2 ==> econvert[1] == econvert[..epos][1];
    if epos == 1 {
      econvert[epos] := '0';
      epos := epos + 1;
    }
  }

  /** The exponent's characters, in reverse as the buffer holds them. */
  method ConvertExponent(exponent: int, up: bool, econvert: array<char>) returns (epos: nat)
    requires econvert.Length == 4
    modifies econvert
    ensures epos == 4
    ensures Reversed(econvert[..4]) ==
            [if up then 'E' else 'e', if exponent < 0 then '-' else '+'] + TwoDigits(Abs(exponent))
  {
    var magnitude, esign := exponent, '+';
    if exponent < 0 {
      magnitude, esign := -exponent, '-';
    }
    epos := ExponentDigits(magnitude, econvert);
    ghost var two := TwoDigits(magnitude);
    econvert[epos] := esign;
    econvert[epos + 1] := if up then 'E' else 'e';
    epos := epos + 2;
    assert econvert[..4] == [two[1], two[0], esign, if up then 'E' else 'e'];
  }

  lemma {:induction false} StripAll(n: int)
    ensures StripZeros(Repeat('0', n)) == []
    decreases n
  {
    if n > 0 {
      var s := Repeat('0', n);
      assert s[..|s| - 1] == Repeat('0', n - 1);
      StripAll(n - 1);
    }
  }

  /** Digits that do not begin with a zero keep what stands before them. */
  lemma {:induction false} StripBehind(z: seq<char>, ds: seq<char>)
    requires ds != [] && ds[0] != '0'
    ensures StripZeros(z + ds) == z + StripZeros(ds)
    decreases |ds|
  {
    var s := z + ds;
    assert s[|s| - 1] == ds[|ds| - 1];
    if ds[|ds| - 1] == '0' {
      assert s[..|s| - 1] == z + ds[..|ds| - 1];
      StripBehind(z, ds[..|ds| - 1]);
    }
  }

  /** How many zeros end the digits that a buffer holds in reverse. */
  method CountZeros(fconvert: array<char>, fpos: nat, ghost ds: seq<char>) returns (omitcount: nat)
    requires fpos == |ds| <= fconvert.Length && fconvert[..fpos] == Reversed(ds)
    ensures omitcount <= fpos && StripZeros(ds) == Reversed(fconvert[omitcount..fpos])
  {
    omitcount := 0;
    assert ds[..fpos] == ds;
    while omitcount < fpos && fconvert[omitcount] == '0'
      invariant omitcount <= fpos && StripZeros(ds[..fpos - omitcount]) == StripZeros(ds)
    {
      ghost var kept := ds[..fpos - omitcount];
      assert kept[|kept| - 1] == fconvert[..fpos][omitcount];
      assert kept[..|kept| - 1] == ds[..fpos - omitcount - 1];
      omitcount := omitcount + 1;
    }
    ghost var kept := ds[..fpos - omitcount];
    assert omitcount < fpos ==> kept[|kept| - 1] == fconvert[..fpos][omitcount];
    assert Reversed(fconvert[omitcount..fpos]) == kept by {
      assert forall i :: omitcount <= i < fpos ==> fconvert[i] == fconvert[..fpos][i];
    }
  }

  /** What the loops of the fraction will print. */
  ghost function FracPrinted(buf: seq<char>, zeros: int, lo: nat, hi: nat): seq<char>
    requires hi <= |buf|
  {
    Repeat('0', zeros) + if lo <= hi then Reversed(buf[lo..hi]) else []
  }

  /** The fraction's digits in reverse; none for zero. */
  method ConvertFraction(fp: nat, precision: nat, fconvert: array<char>, ghost ds: seq<char>) returns (fpos: nat)
    requires fp < Ten(precision) && precision <= MAX_PRECISION && fconvert.Length == 43
    requires ds == if fp == 0 then [] else DigitsOf(fp, 10, false)
    modifies fconvert
    ensures fpos == |ds| <= precision && fconvert[..fpos] == Reversed(ds)
    ensures fpos > 0 ==> ds[0] != '0'
  {
    fpos := 0;
    if fp != 0 {
      FractionFits(fp, precision);
      fpos := Convert(fp, fconvert, fconvert.Length, 10, false);
      assert Reversed(ds)[..fpos] == Reversed(ds);
      FirstDigit(fp, 10, false);
    }
  }

  lemma WholeBuffer(buf: seq<char>, ds: seq<char>)
    requires |ds| <= |buf| && buf[..|ds|] == Reversed(ds)
    ensures Reversed(buf[0..|ds|]) == ds
  {
    assert buf[0..|ds|] == buf[..|ds|];
  }

  /** The fraction's digits, its leading zeros, and the zeros to omit at its end. */
  method MeasureFraction(fp: nat, precision: nat, omitzeros: bool, fconvert: array<char>)
    returns (fpos: nat, leadfraczeros: int, omitcount: nat)
    requires fp < Ten(precision) && precision <= MAX_PRECISION && fconvert.Length == 43
    modifies fconvert
    ensures fpos <= 43
    ensures
      var digits := FracDigits(fp, precision);
      var shown := if omitzeros then StripZeros(digits) else digits;
      && FracPrinted(fconvert[..], leadfraczeros, omitcount, fpos) == shown
      && |shown| == precision - omitcount
  {
    ghost var ds := if fp == 0 then [] else DigitsOf(fp, 10, false);
    fpos := ConvertFraction(fp, precision, fconvert, ds);
    assert fconvert[..][..fpos] == fconvert[..fpos];
    leadfraczeros, omitcount := Omit(precision, omitzeros, fconvert, fpos, ds);
  }

  method Omit(precision: nat, omitzeros: bool, fconvert: array<char>, fpos: nat, ghost ds: seq<char>)
    returns (leadfraczeros: int, omitcount: nat)
    requires fpos == |ds| <= precision && fpos <= fconvert.Length && fconvert[..fpos] == Reversed(ds)
    requires fpos > 0 ==> ds[0] != '0'
    ensures
      var digits := Repeat('0', precision - |ds|) + ds;
      var shown := if omitzeros then StripZeros(digits) else digits;
      && FracPrinted(fconvert[..], leadfraczeros, omitcount, fpos) == shown
      && |shown| == precision - omitcount
  {
    leadfraczeros, omitcount := precision - fpos, 0;
    WholeBuffer(fconvert[..], ds);
    if omitzeros {
      if fpos > 0 {
        omitcount := CountZeros(fconvert, fpos, ds);
        StripBehind(Repeat('0', leadfraczeros), ds);
        assert fconvert[..][omitcount..fpos] == fconvert[omitcount..fpos];
      } else {
        omitcount, leadfraczeros := precision, 0;
        StripAll(precision);
        assert Repeat('0', precision) + [] == Repeat('0', precision);
      }
    }
  }

  lemma FractionFits(fp: nat, p: nat)
    requires 0 < fp < Ten(p) && p <= MAX_PRECISION
    ensures |DigitsOf(fp, 10, false)| <= p
  {
    DigitsBound(fp, 10, false, p);
  }

  /** Integer part, point, fraction, exponent. */
  method EmitNumber(out: Out, iconvert: array<char>, ipos: nat, ghost digits: seq<char>, sep: seq<char>,
                    separators: int, point: seq<char>, leadfraczeros: int, fconvert: array<char>, fpos: nat,
                    omitcount: nat, econvert: array<char>, epos: nat)
    requires out.Valid() && iconvert != out.str && fconvert != out.str && econvert != out.str
    requires ipos == |digits| <= iconvert.Length && iconvert[..ipos] == Reversed(digits)
    requires fpos <= fconvert.Length && epos <= econvert.Length
    modifies out, out.str
    ensures out.Valid()
    ensures out.text == old(out.text) +
            (Grouped(digits, if separators > 0 then sep else []) + point
             + FracPrinted(fconvert[..], leadfraczeros, omitcount, fpos) + Reversed(econvert[..epos]))
  {
    ghost var before := out.text;
    EmitDigits(out, iconvert, ipos, digits, sep, separators);
    out.EmitAll(point);
    ghost var t := out.text;
    out.EmitRun('0', leadfraczeros);
    EmitDown(out, fconvert, fpos, omitcount);
    ghost var frac := FracPrinted(fconvert[..], leadfraczeros, omitcount, fpos);
    assert out.text == t + frac by {
      assert omitcount <= fpos ==> fconvert[..][omitcount..fpos] == fconvert[omitcount..fpos];
      ConcatAssoc(t, Repeat('0', leadfraczeros), if omitcount <= fpos then Reversed(fconvert[omitcount..fpos]) else []);
    }
    EmitDown(out, econvert, epos, 0);
    assert econvert[0..epos] == econvert[..epos];
    Layout4(before, Grouped(digits, if separators > 0 then sep else []), point, frac, Reversed(econvert[..epos]));
  }

  /** Sign and padding before the number; what is still to be padded behind it. */
  method EmitFront(out: Out, sign: seq<char>, padlen: nat, flags: Flags) returns (behind: nat)
    requires out.Valid()
    modifies out, out.str
    ensures out.Valid() && behind == if flags.minus then padlen else 0
    ensures out.text == old(out.text) +
            if flags.minus then sign
            else if flags.zero then sign + Repeat('0', padlen) else Repeat(' ', padlen) + sign
  {
    var pad: int, shown := padlen, sign;
    ghost var before := out.text;
    if flags.minus {
      pad := -pad;
    } else if flags.zero && pad > 0 {
      out.EmitAll(sign);
      shown := "";
      out.EmitRun('0', pad);
      pad := 0;
    }
    ghost var t := out.text;
    out.EmitRun(' ', pad);
    out.EmitAll(shown);
    behind := if pad < 0 then -pad else 0;
    Layout3(before, Repeat(' ', pad), sign, []);
    Layout3(before, sign, Repeat('0', padlen), []);
    assert (t + []) + [] == t && sign + [] == sign == [] + sign;
    assert before + [] == before;
  }

  /** A front, a number and blanks behind make up the field. */
  lemma Assemble(before: seq<char>, sign: seq<char>, number: seq<char>, width: int, flags: Flags, padlen: nat)
    requires padlen == Max(width - |sign| - |number|, 0)
    ensures
      var front := if flags.minus then sign
                   else if flags.zero then sign + Repeat('0', padlen) else Repeat(' ', padlen) + sign;
      var behind := if flags.minus then padlen else 0;
      ((before + front) + number) + Repeat(' ', behind) == before + InField(sign, number, width, flags)
  {
    var missing := width - |sign| - |number|;
    assert Repeat('0', missing) == Repeat('0', padlen) && Repeat(' ', missing) == Repeat(' ', padlen);
    var front := if flags.minus then sign
                 else if flags.zero then sign + Repeat('0', padlen) else Repeat(' ', padlen) + sign;
    Layout3(before, front, number, Repeat(' ', if flags.minus then padlen else 0));
  }

  lemma {:induction false} GroupedShort(s: seq<char>, sep: seq<char>)
    requires |s| <= 3
    ensures Grouped(s, sep) == s
    decreases |s|
  {
    if s != [] {
      GroupedShort(s[1..], sep);
      assert [s[0]] + s[1..] == s;
    }
  }

  /** Where getnumsep counts none, none is printed; otherwise as many as it counts. */
  lemma Separated(ds: seq<char>, sep: seq<char>, quote: bool, separators: int)
    requires ds != [] && separators == if quote then NumSeps(|ds|) * |sep| else 0
    ensures Grouped(ds, if separators > 0 then sep else []) == Grouped(ds, if quote then sep else [])
    ensures |Grouped(ds, if quote then sep else [])| == |ds| + separators
  {
    GroupedWithout(ds);
    if quote {
      GroupedLength(ds, sep);
      assert NumSeps(|ds|) >= 0;
      if NumSeps(|ds|) == 0 {
        GroupedShort(ds, sep);
      } else if |sep| > 0 {
        Positive(NumSeps(|ds|), |sep|);
      }
    }
  }

  lemma Positive(a: int, b: int)
    requires a > 0 && b > 0
    ensures a * b > 0
  {
  }

  /** Padding, sign, number, padding. */
  method EmitField(out: Out, sign: seq<char>, width: int, ghost number: seq<char>, padlen: nat, flags: Flags,
                   iconvert: array<char>, ipos: nat, ghost digits: seq<char>, sep: seq<char>,
                   separators: int, point: seq<char>, leadfraczeros: int, fconvert: array<char>, fpos: nat,
                   omitcount: nat, econvert: array<char>, epos: nat)
    requires out.Valid() && iconvert != out.str && fconvert != out.str && econvert != out.str
    requires ipos == |digits| <= iconvert.Length && iconvert[..ipos] == Reversed(digits)
    requires fpos <= fconvert.Length && epos <= econvert.Length
    requires number == Grouped(digits, if separators > 0 then sep else []) + point
                       + FracPrinted(fconvert[..], leadfraczeros, omitcount, fpos) + Reversed(econvert[..epos])
    requires padlen == Max(width - |sign| - |number|, 0)
    modifies out, out.str
    ensures out.Valid() && out.text == old(out.text) + InField(sign, number, width, flags)
  {
    ghost var before := out.text;
    var behind := EmitFront(out, sign, padlen, flags);
    EmitNumber(out, iconvert, ipos, digits, sep, separators, point, leadfraczeros, fconvert, fpos,
               omitcount, econvert, epos);
    out.EmitRun(' ', behind);
    Assemble(before, sign, number, width, flags, padlen);
  }

  /** The integer part's digits in reverse. */
  method ConvertWhole(ip: nat, iconvert: array<char>) returns (ipos: nat)
    requires ip <= UINTMAX_MAX && iconvert.Length == 43
    modifies iconvert
    ensures ipos == |DigitsOf(ip, 10, false)| <= 43 && iconvert[..ipos] == Reversed(DigitsOf(ip, 10, false))
  {
    DigitsFit(ip, 10, false);
    ipos := Convert(ip, iconvert, iconvert.Length, 10, false);
    assert Reversed(DigitsOf(ip, 10, false))[..ipos] == Reversed(DigitsOf(ip, 10, false));
  }

  /** The exponent's characters in reverse, if there is one. */
  method ExponentPart(estyle: bool, exponent: int, flags: Flags, econvert: array<char>, ghost parts: Parts)
    returns (epos: nat)
    requires econvert.Length == 4 && parts.estyle == estyle && parts.exponent == exponent
    modifies econvert
    ensures epos <= 4 && Reversed(econvert[..epos]) == ExpShown(parts, flags) && epos == |ExpShown(parts, flags)|
  {
    epos := 0;
    if estyle {
      epos := ConvertExponent(exponent, flags.up, econvert);
    }
  }

  /** The characters the separators take. */
  method CountSeparators(ipos: nat, ghost digits: seq<char>, quote: bool, sep: seq<char>) returns (separators: int)
    requires digits != [] && ipos == |digits|
    ensures Grouped(digits, if separators > 0 then sep else []) == Grouped(digits, if quote then sep else [])
    ensures |Grouped(digits, if quote then sep else [])| == ipos + separators
  {
    separators := 0;
    if quote {
      separators := NumSeps(ipos) * |sep|;
    }
    Separated(digits, sep, quote, separators);
  }

  /** The rest of fmtflt once the parts are known. */
  method EmitFloat(out: Out, sign: seq<char>, ip: nat, fp: nat, precision: nat, exponent: int, estyle: bool,
                   width: int, flags: Flags, sep: seq<char>)
    requires out.Valid() && ip <= UINTMAX_MAX && fp < Ten(precision) && precision <= MAX_PRECISION
    modifies out, out.str
    ensures out.Valid()
    ensures out.text == old(out.text) +
            InField(sign, Number(Parts(estyle, ip, fp, precision, exponent), flags, sep), width, flags)
  {
    var iconvert, fconvert, econvert := new char[43], new char[43], new char[4];
    ghost var parts := Parts(estyle, ip, fp, precision, exponent);
    var epos := ExponentPart(estyle, exponent, flags, econvert, parts);
    var ipos := ConvertWhole(ip, iconvert);
    var fpos, leadfraczeros, omitcount := MeasureFraction(fp, precision, flags.typeG && !flags.num, fconvert);
    var point := if precision - omitcount > 0 || flags.num then "." else "";
    ghost var digits := DigitsOf(ip, 10, false);
    var separators := CountSeparators(ipos, digits, flags.quote, sep);
    var padlen := Max(width - ipos - epos - (precision - omitcount) - separators - |point| - |sign|, 0);
    EmitField(out, sign, width, Number(parts, flags, sep), padlen, flags, iconvert, ipos, digits, sep, separators,
              point, leadfraczeros, fconvert, fpos, omitcount, econvert, epos);
  }

  /** An infinity or not a number. */
  method EmitWord(out: Out, iconvert: seq<char>, width: int, flags: Flags)
    requires out.Valid()
    modifies out, out.str
    ensures out.Valid() && out.text == old(out.text) + Padded(iconvert, width, flags.minus)
  {
    FmtStr(out, Some(iconvert), width, |iconvert|, flags);
    assert iconvert[..|iconvert|] == iconvert;
  }

  /** fmtflt. */
  method FmtFlt(out: Out, v: FVal, width: int, precision: int, flags: Flags, sep: seq<char>) returns (overflow: bool)
    requires out.Valid() && precision >= -1 && (flags.typeG ==> precision != 0)
    modifies out, out.str
    ensures out.Valid()
    ensures overflow <==> FloatText(v, width, precision, flags, sep) == None
    ensures out.text == old(out.text) +
            if overflow then [] else FloatText(v, width, precision, flags, sep).value
  {
    var prec := if precision == -1 then 6 else precision;
    var sign := SignChars(Negative(v), flags);
    overflow := false;
    if !v.Fin? {
      EmitWord(out, sign + Word(v, flags), width, flags);
      return;
    }
    overflow := FmtFinite(out, v.v, sign, width, prec, flags, sep, PartsOf(Magnitude(v.v), precision, flags));
    assert out.text + [] == out.text;
  }

  /** A finite value: its parts, then its text. */
  method FmtFinite(out: Out, fvalue: real, sign: seq<char>, width: int, precision: nat, flags: Flags, sep: seq<char>,
                   ghost parts: Option<Parts>)
    returns (overflow: bool)
    requires out.Valid() && (flags.typeG ==> precision != 0) && parts == PartsOf(Magnitude(fvalue), precision, flags)
    modifies out, out.str
    ensures out.Valid() && (overflow <==> parts.None?)
    ensures overflow ==> out.text == old(out.text)
    ensures !overflow ==> out.text == old(out.text) + InField(sign, Number(parts.value, flags, sep), width, flags)
  {
    var ip, fp, prec, exponent, estyle;
    overflow, ip, fp, prec, exponent, estyle := FindParts(fvalue, precision, flags);
    if !overflow {
      EmitFloat(out, sign, ip, fp, prec, exponent, estyle, width, flags, sep);
    }
  }

  method FindParts(fvalue: real, precision: nat, flags: Flags)
    returns (overflow: bool, ip: nat, fp: nat, prec: nat, exponent: int, estyle: bool)
    requires flags.typeG ==> precision != 0
    ensures overflow <==> PartsOf(Magnitude(fvalue), precision, flags) == None
    ensures !overflow ==>
              && PartsOf(Magnitude(fvalue), precision, flags) == Some(Parts(estyle, ip, fp, prec, exponent))
              && ip <= UINTMAX_MAX && fp < Ten(prec) && prec <= MAX_PRECISION
  {
    prec, exponent, estyle := precision, 0, flags.typeE;
    if flags.typeE || flags.typeG {
      if flags.typeG {
        prec := prec - 1;
      }
      exponent := GetExponent(fvalue);
      estyle := true;
    }
    SettlesParts(Magnitude(fvalue), precision, flags);
    overflow, ip, fp, prec, exponent, estyle :=
      Again(Magnitude(fvalue), prec, flags, exponent, estyle, PartsOf(Magnitude(fvalue), precision, flags));
  }

  /** The jump back to `again` is taken at most once: only the exponent style jumps,
      and it jumps into the other. */
  method Again(a: real, precision: nat, flags: Flags, first: int, style: bool, ghost goal: Option<Parts>)
    returns (overflow: bool, ip: nat, fp: nat, prec: nat, exponent: int, estyle: bool)
    requires a >= 0.0 && (!style ==> first == 0) && goal == Settle(a, style, first, precision, flags)
    ensures overflow <==> goal == None
    ensures !overflow ==>
              && goal == Some(Parts(estyle, ip, fp, prec, exponent))
              && ip <= UINTMAX_MAX && fp < Ten(prec) && prec <= MAX_PRECISION
  {
    prec, exponent, estyle := precision, first, style;
    while true
      invariant !estyle ==> exponent == 0
      invariant goal == Settle(a, estyle, exponent, prec, flags)
      decreases estyle
    {
      prec := Min(prec, MAX_PRECISION);
      var e := exponent;
      overflow, ip, fp, exponent := ScaleValue(a, estyle, e, prec);
      if overflow {
        return;
      }
      if flags.typeG && estyle && prec + 1 > exponent && exponent >= -4 {
        prec := prec - exponent;
        estyle, exponent := false, 0;
      } else {
        return;
      }
    }
  }

  /** What the code from `again:` on settles for. */
  ghost function Settle(a: real, estyle: bool, e: int, p: nat, flags: Flags): Option<Parts>
    requires a >= 0.0
  {
    var first := Scale(a, estyle, e, Cap(p));
    if first.None? || !flags.typeG || !estyle then first
    else
      var x := first.value.exponent;
      if Cap(p) + 1 > x >= -4 then Scale(a, false, 0, Cap(Cap(p) - x)) else first
  }

  lemma SettlesParts(a: real, precision: nat, flags: Flags)
    requires a >= 0.0 && (flags.typeG ==> precision != 0)
    ensures PartsOf(a, precision, flags) ==
            Settle(a, flags.typeE || flags.typeG, if flags.typeE || flags.typeG then Exponent(a) else 0,
                   if flags.typeG then precision - 1 else precision, flags)
  {
  }
}
