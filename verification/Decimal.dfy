/** Decimal scaling with exact reals: mypow10, getexponent, cast and myround of
    lib/snprintf.c, against "round the scaled value to an integer". */
module Decimal {
  import opened Base
  import opened Sink
  import opened Digits

  // ---------- powers of ten ----------

  function Pow10(e: int): (r: real)
    ensures r > 0.0
    decreases if e < 0 then -e else e
  {
    if e == 0 then 1.0 else if e > 0 then 10.0 * Pow10(e - 1) else Pow10(e + 1) / 10.0
  }

  lemma Pow10Step(e: int)
    ensures Pow10(e + 1) == 10.0 * Pow10(e)
  {
  }

  /** mypow10 multiplies or divides its way to the power. */
  method MyPow10(exponent: int) returns (result: real)
    ensures result == Pow10(exponent)
  {
    result := 1.0;
    var left := exponent;
    while left > 0
      invariant result == Pow10(exponent - left) && (exponent >= 0 ==> left >= 0) && (exponent < 0 ==> left == exponent)
    {
      Pow10Step(exponent - left);
      result := result * 10.0;
      left := left - 1;
    }
    while left < 0
      invariant result == Pow10(exponent - left) && left <= 0 && (exponent >= 0 ==> left == 0)
    {
      Pow10Step(exponent - left - 1);
      result := result / 10.0;
      left := left + 1;
    }
  }

  lemma {:induction false} Pow10Grows(e: int, f: int)
    requires e <= f
    ensures Pow10(e) <= Pow10(f)
    decreases f - e
  {
    if e < f {
      Pow10Step(e);
      Pow10Grows(e + 1, f);
    }
  }

  lemma {:induction false} Pow10OfNat(n: nat)
    ensures Pow10(n) == Pow(10, n) as real
  {
    if n > 0 {
      Pow10OfNat(n - 1);
    }
  }

  lemma Associate(x: real, k: real, y: real)
    ensures k * (x * y) == x * (k * y) == (x * k) * y
  {
  }

  // ---------- decimal places of integers ----------

  function Ten(p: nat): (m: nat)
    ensures m > 0
  {
    Pow(10, p)
  }

  /** `x` with `n` zeros appended. */
  function Places(x: nat, n: nat): nat {
    if n == 0 then x else 10 * Places(x, n - 1)
  }

  /** A number without its last `p` digits. */
  function Drop(n: nat, p: nat): nat {
    if p == 0 then n else Drop(n / 10, p - 1)
  }

  /** Its last `p` digits. */
  function Low(n: nat, p: nat): (r: nat)
    ensures r < Ten(p)
  {
    if p == 0 then 0 else 10 * Low(n / 10, p - 1) + n % 10
  }

  lemma {:induction false} DropAndLow(n: nat, p: nat)
    ensures Places(Drop(n, p), p) + Low(n, p) == n
  {
    if p > 0 {
      DropAndLow(n / 10, p - 1);
    }
  }

  lemma {:induction false} DropUnique(n: nat, q: nat, r: nat, p: nat)
    requires n == Places(q, p) + r && r < Ten(p)
    ensures Drop(n, p) == q && Low(n, p) == r
  {
    if p > 0 {
      assert Ten(p) == 10 * Ten(p - 1);
      DropUnique(n / 10, q, r / 10, p - 1);
    }
  }

  lemma {:induction false} PlacesSum(a: nat, b: nat, p: nat)
    ensures Places(a + b, p) == Places(a, p) + Places(b, p)
  {
    if p > 0 {
      PlacesSum(a, b, p - 1);
    }
  }

  lemma {:induction false} PlacesOne(p: nat)
    ensures Places(1, p) == Ten(p) && Places(10, p) == 10 * Ten(p)
  {
    if p > 0 {
      PlacesOne(p - 1);
    }
  }

  lemma {:induction false} PlacesLess(a: nat, b: nat, p: nat)
    ensures a < b <==> Places(a, p) < Places(b, p)
  {
    if p > 0 {
      PlacesLess(a, b, p - 1);
    }
  }

  // ---------- moving the decimal point ----------

  /** `x` with its decimal point `e` places further right. */
  function Shift(x: real, e: int): (r: real)
    ensures x >= 0.0 ==> r >= 0.0
    decreases if e < 0 then -e else e
  {
    if e == 0 then x else if e > 0 then 10.0 * Shift(x, e - 1) else Shift(x, e + 1) / 10.0
  }

  lemma ShiftStep(x: real, e: int)
    ensures Shift(x, e + 1) == 10.0 * Shift(x, e)
  {
  }

  lemma {:induction false} ShiftShift(x: real, e: int, f: int)
    ensures Shift(Shift(x, e), f) == Shift(x, e + f)
    decreases if f < 0 then -f else f
  {
    if f > 0 {
      ShiftShift(x, e, f - 1);
      ShiftStep(x, e + f - 1);
    } else if f < 0 {
      ShiftShift(x, e, f + 1);
      ShiftStep(x, e + f);
    }
  }

  lemma {:induction false} ShiftSum(x: real, y: real, e: int)
    ensures Shift(x + y, e) == Shift(x, e) + Shift(y, e)
    decreases if e < 0 then -e else e
  {
    if e > 0 {
      ShiftSum(x, y, e - 1);
    } else if e < 0 {
      ShiftSum(x, y, e + 1);
    }
  }

  lemma {:induction false} ShiftInt(i: nat, n: nat)
    ensures Shift(i as real, n) == Places(i, n) as real
  {
    if n > 0 {
      ShiftInt(i, n - 1);
    }
  }

  lemma {:induction false} ShiftMul(x: real, n: nat)
    ensures Shift(x, n) == x * Pow10(n)
  {
    if n > 0 {
      ShiftMul(x, n - 1);
      Associate(x, 10.0, Pow10(n - 1));
    }
  }

  lemma {:induction false} ShiftBelow(x: real, y: real, e: int)
    ensures x < y <==> Shift(x, e) < Shift(y, e)
    decreases if e < 0 then -e else e
  {
    if e > 0 {
      ShiftBelow(x, y, e - 1);
    } else if e < 0 {
      ShiftBelow(x, y, e + 1);
    }
  }

  lemma {:induction false} ShiftOne(e: int)
    ensures Shift(1.0, e) == Pow10(e)
    decreases if e < 0 then -e else e
  {
    if e > 0 {
      ShiftOne(e - 1);
    } else if e < 0 {
      ShiftOne(e + 1);
    }
  }

  /** Dividing by a power of ten moves the point left. */
  lemma {:induction false} ShiftDivides(a: real, e: int)
    ensures a / Pow10(e) == Shift(a, -e)
    decreases if e < 0 then -e else e
  {
    if e > 0 {
      ShiftDivides(a, e - 1);
      DivideAgain(a, Pow10(e - 1));
      ShiftStep(a, -e);
    } else if e < 0 {
      ShiftDivides(a, e + 1);
      Pow10Step(e);
      DivideAgain(a, Pow10(e));
      ShiftStep(a, -e - 1);
    }
  }

  lemma DivideAgain(a: real, p: real)
    requires p > 0.0
    ensures a / (10.0 * p) == (a / p) / 10.0
  {
    var q := a / p;
    assert a == q * p;
    Associate(q / 10.0, 10.0, p);
    QuotientUnique(a, 10.0 * p, q / 10.0);
  }

  lemma QuotientUnique(a: real, p: real, q: real)
    requires p > 0.0 && q * p == a
    ensures a / p == q
  {
  }

  // ---------- the exponent ----------

  const MIN_EXPONENT: int := -99
  const MAX_EXPONENT: int := 99

  /** The decimal exponent of a magnitude, kept between -99 and 99. */
  ghost predicate IsExponent(a: real, e: int) {
    if a == 0.0 then e == 0
    else
      && MIN_EXPONENT <= e <= MAX_EXPONENT
      && (Pow10(e) <= a || e == MIN_EXPONENT)
      && (a < Pow10(e + 1) || e == MAX_EXPONENT)
  }

  lemma ExponentUnique(a: real, e: int, f: int)
    requires IsExponent(a, e) && IsExponent(a, f)
    ensures e == f
  {
    if e < f {
      Pow10Grows(e + 1, f);
    } else if f < e {
      Pow10Grows(f + 1, e);
    }
  }

  /** The largest exponent up to 99 whose power of ten is no larger. */
  function Climb(a: real, e: int): (r: int)
    requires MIN_EXPONENT <= e <= MAX_EXPONENT && Pow10(e) <= a
    ensures IsExponent(a, r)
    decreases MAX_EXPONENT - e
  {
    if e == MAX_EXPONENT || a < Pow10(e + 1) then e else Climb(a, e + 1)
  }

  function Exponent(a: real): (e: int)
    requires a >= 0.0
    ensures IsExponent(a, e)
  {
    if a == 0.0 then 0
    else if a < Pow10(MIN_EXPONENT) then assert a < Pow10(MIN_EXPONENT + 1) by { Pow10Step(MIN_EXPONENT); } MIN_EXPONENT
    else Climb(a, MIN_EXPONENT)
  }

  /** What a significand says about the magnitude it stands for. */
  lemma Bounds(a: real, e: int)
    ensures Shift(a, -e) < 1.0 <==> a < Pow10(e)
    ensures Shift(a, -e) < 10.0 <==> a < Pow10(e + 1)
  {
    ShiftOne(e);
    ShiftShift(1.0, e, -e);
    ShiftBelow(a, Pow10(e), -e);
    ShiftOne(e + 1);
    ShiftShift(1.0, e + 1, -e);
    ShiftBelow(a, Pow10(e + 1), -e);
    assert Shift(1.0, 1) == 10.0 * Shift(1.0, 0);
  }

  /** The first loop of getexponent: a small magnitude is multiplied up. */
  method ScaleSmall(a: real) returns (exponent: int)
    requires 0.0 < a < 1.0
    ensures IsExponent(a, exponent)
  {
    var tmp := a;
    exponent := 0;
    while tmp < 1.0
      invariant -98 <= exponent <= 0 && tmp < 10.0 && tmp == Shift(a, -exponent)
      decreases exponent - MIN_EXPONENT
    {
      exponent := exponent - 1;
      if exponent <= MIN_EXPONENT {
        Bounds(a, exponent + 1);
        return;
      }
      tmp := tmp * 10.0;
    }
    Bounds(a, exponent);
  }

  /** The second loop: a large one is divided down. */
  method ScaleLarge(a: real) returns (exponent: int)
    requires a >= 1.0
    ensures IsExponent(a, exponent)
  {
    var tmp := a;
    exponent := 0;
    while tmp >= 10.0
      invariant 0 <= exponent <= 98 && tmp >= 1.0 && tmp == Shift(a, -exponent)
      decreases MAX_EXPONENT - exponent
    {
      exponent := exponent + 1;
      if exponent >= MAX_EXPONENT {
        Bounds(a, exponent - 1);
        return;
      }
      tmp := tmp / 10.0;
    }
    Bounds(a, exponent);
  }

  /** getexponent: the two loops find the exponent the search from below finds. */
  method GetExponent(value: real) returns (exponent: int)
    ensures exponent == Exponent(if value >= 0.0 then value else -value)
  {
    var tmp := if value >= 0.0 then value else -value;
    ghost var a := tmp;
    exponent := 0;
    if tmp < 1.0 && tmp > 0.0 {
      exponent := ScaleSmall(tmp);
    } else if tmp >= 10.0 {
      exponent := ScaleLarge(tmp);
    } else if tmp != 0.0 {
      Bounds(a, 0);
    }
    ExponentUnique(a, exponent, Exponent(a));
  }

  // ---------- rounding ----------

  function Round(x: real): (n: int)
    ensures -0.5 <= n as real - x <= 0.5
    ensures x >= 0.0 ==> n >= 0
  {
    (x + 0.5).Floor
  }

  /** cast: truncation, or the largest value where that would overflow. With exact
      reals the correction for a cast that rounds up never applies. */
  method Cast(value: real) returns (result: nat)
    requires value >= 0.0
    ensures result == if value >= UINTMAX_MAX as real then UINTMAX_MAX else value.Floor
  {
    if value >= UINTMAX_MAX as real {
      return UINTMAX_MAX;
    }
    result := value.Floor;
  }

  method MyRound(value: real) returns (result: nat)
    requires 0.0 <= value < UINTMAX_MAX as real
    ensures result == Round(value)
  {
    var intpart := Cast(value);
    result := if value - intpart as real < 0.5 then intpart else intpart + 1;
  }

  /** A magnitude rounded, half up, at the place 10 to the `place`. */
  function RoundedAt(a: real, place: int): real {
    Shift(Round(Shift(a, -place)) as real, place)
  }

  /** Rounding moves a magnitude by at most half a unit of its place. */
  lemma WithinHalfUnit(a: real, place: int)
    ensures -Shift(0.5, place) <= RoundedAt(a, place) - a <= Shift(0.5, place)
  {
    var x := Shift(a, -place);
    var n := Round(x) as real;
    ShiftShift(a, -place, place);
    ShiftSum(n, 0.5, place);
    ShiftSum(x, 0.5, place);
    ShiftBelow(n + 0.5, x, place);
    ShiftBelow(x + 0.5, n, place);
  }
}
