/** Digit strings: `convert` of lib/snprintf.c and what reading them back gives. */
module Digits {
  import opened Base
  import opened Sink

  const LOWER: seq<char> := "0123456789abcdef"
  const UPPER: seq<char> := "0123456789ABCDEF"

  type base = b: int | b == 8 || b == 10 || b == 16 witness 10

  function DigitChar(d: nat, caps: bool): char
    requires d < 16
  {
    if caps then UPPER[d] else LOWER[d]
  }

  /** The value of a digit, or -1 for any other character. */
  function DigitVal(c: char): int {
    if '0' <= c <= '9' then c as int - '0' as int
    else if 'a' <= c <= 'f' then 10 + (c as int - 'a' as int)
    else if 'A' <= c <= 'F' then 10 + (c as int - 'A' as int)
    else -1
  }

  lemma DigitRoundTrip(d: nat, caps: bool)
    requires d < 16
    ensures DigitVal(DigitChar(d, caps)) == d
  {
  }

  /** The digits of a number, most significant first; zero has one. */
  function DigitsOf(v: nat, b: base, caps: bool): (s: seq<char>)
    ensures |s| >= 1
    decreases v
  {
    if v < b then [DigitChar(v, caps)] else DigitsOf(v / b, b, caps) + [DigitChar(v % b, caps)]
  }

  predicate AllDigits(s: seq<char>, b: base) {
    forall i :: 0 <= i < |s| ==> 0 <= DigitVal(s[i]) < b
  }

  predicate Decimals(s: seq<char>) {
    AllDigits(s, 10)
  }

  /** The number a string of digits denotes. */
  function Read(s: seq<char>, b: base): (v: nat)
    requires AllDigits(s, b)
    decreases |s|
  {
    if s == [] then 0 else b * Read(s[..|s| - 1], b) + DigitVal(s[|s| - 1])
  }

  lemma DivMod(v: nat, b: base)
    ensures v == b * (v / b) + v % b && 0 <= v % b < b && v / b >= 0
    ensures v >= b ==> v / b < v
  {
  }

  /** Reading a number's digits gives the number back. */
  lemma {:induction false} ReadDigits(v: nat, b: base, caps: bool)
    ensures AllDigits(DigitsOf(v, b, caps), b) && Read(DigitsOf(v, b, caps), b) == v
    decreases v
  {
    var s := DigitsOf(v, b, caps);
    if v < b {
      DigitRoundTrip(v, caps);
      assert s[..0] == [];
    } else {
      DivMod(v, b);
      ReadDigits(v / b, b, caps);
      DigitRoundTrip(v % b, caps);
      assert s[..|s| - 1] == DigitsOf(v / b, b, caps);
    }
  }

  lemma ReadSnoc(s: seq<char>, c: char, b: base)
    requires AllDigits(s, b) && 0 <= DigitVal(c) < b
    ensures AllDigits(s + [c], b) && Read(s + [c], b) == b * Read(s, b) + DigitVal(c)
  {
    var t := s + [c];
    assert t[..|t| - 1] == s;
  }

  lemma {:induction false} ZerosReadZero(n: int, b: base)
    ensures AllDigits(Repeat('0', n), b) && Read(Repeat('0', n), b) == 0
    decreases n
  {
    if n > 0 {
      ZerosReadZero(n - 1, b);
      ReadSnoc(Repeat('0', n - 1), '0', b);
    }
  }

  /** Leading zeros change nothing. */
  lemma {:induction false} ReadZeros(n: int, s: seq<char>, b: base)
    requires AllDigits(s, b)
    ensures AllDigits(Repeat('0', n) + s, b) && Read(Repeat('0', n) + s, b) == Read(s, b)
    decreases |s|
  {
    var zeros := Repeat('0', n);
    if s == [] {
      assert zeros + s == zeros;
      ZerosReadZero(n, b);
    } else {
      var init, last := s[..|s| - 1], s[|s| - 1];
      assert s == init + [last];
      ReadZeros(n, init, b);
      ReadSnoc(zeros + init, last, b);
      ConcatAssoc(zeros, init, [last]);
    }
  }

  // ---------- lengths ----------

  function Pow(b: nat, n: nat): (p: nat)
    ensures b > 0 ==> p > 0
  {
    if n == 0 then 1 else b * Pow(b, n - 1)
  }

  /** A number below base to the n has at most n digits. */
  lemma {:induction false} DigitsBound(v: nat, b: base, caps: bool, n: nat)
    requires n > 0 && v < Pow(b, n)
    ensures |DigitsOf(v, b, caps)| <= n
    decreases n
  {
    var p := Pow(b, n - 1);
    assert n == 1 ==> b * p == b;
    if v >= b && n > 1 {
      DivMod(v, b);
      assert b * (v / b) < b * p;
      assert v / b < p;
      DigitsBound(v / b, b, caps, n - 1);
    }
  }

  const UINTMAX_MAX: nat := 0xFFFF_FFFF_FFFF_FFFF

  /** No 64-bit number needs more than 22 digits. */
  lemma DigitsFit(v: nat, b: base, caps: bool)
    requires v <= UINTMAX_MAX
    ensures |DigitsOf(v, b, caps)| <= 22
  {
    PowEight();
    PowGrows(b, 22);
    DigitsBound(v, b, caps, 22);
  }

  lemma PowStep(b: nat, m: nat, n: nat)
    ensures Pow(b, m + n) == Pow(b, m) * Pow(b, n)
    decreases m
  {
    if m > 0 {
      PowStep(b, m - 1, n);
      assert b * (Pow(b, m - 1) * Pow(b, n)) == b * Pow(b, m - 1) * Pow(b, n);
    } else {
      assert 1 * Pow(b, n) == Pow(b, n);
    }
  }

  lemma PowEight()
    ensures Pow(8, 22) == 0x4_0000_0000_0000_0000
  {
    assert Pow(8, 2) == 64 by { assert Pow(8, 1) == 8 * Pow(8, 0); }
    PowStep(8, 2, 2);
    assert Pow(8, 4) == 0x1000;
    PowStep(8, 4, 4);
    assert Pow(8, 8) == 0x100_0000;
    PowStep(8, 8, 8);
    assert Pow(8, 16) == 0x1_0000_0000_0000;
    PowStep(8, 4, 2);
    PowStep(8, 16, 6);
  }

  lemma MulGrows(a: nat, b: nat, c: nat, d: nat)
    requires a <= b && c <= d
    ensures a * c <= b * d
  {
    assert b * d == a * c + a * (d - c) + (b - a) * d;
  }

  lemma {:induction false} PowGrows(b: nat, n: nat)
    requires b >= 8
    ensures Pow(b, n) >= Pow(8, n)
  {
    if n > 0 {
      PowGrows(b, n - 1);
      MulGrows(8, b, Pow(8, n - 1), Pow(b, n - 1));
    }
  }

  // ---------- convert ----------

  /** The last digit, and the digits before it. */
  lemma LastDigit(v: nat, b: base, caps: bool, d: int, q: int)
    requires d == v % b && q == v / b
    ensures 0 <= d < b && 0 <= q && (q != 0 ==> q < v)
    ensures
      var r := Reversed(DigitsOf(v, b, caps));
      && r[0] == DigitChar(d, caps)
      && r[1..] == if q == 0 then [] else Reversed(DigitsOf(q, b, caps))
  {
    DivMod(v, b);
    var rest := if v < b then [] else DigitsOf(q, b, caps);
    assert DigitsOf(v, b, caps) == rest + [DigitChar(d, caps)];
    ReversedAppend(rest, [DigitChar(d, caps)]);
  }

  lemma MoveOne(all: seq<char>, done: seq<char>, left: seq<char>)
    requires left != [] && all == done + left
    ensures all == (done + [left[0]]) + left[1..]
  {
  }

  /** convert: the digits in reverse, as many as fit the buffer. */
  method Convert(value: nat, buf: array<char>, size: nat, b: base, caps: bool) returns (pos: nat)
    requires 0 < size <= buf.Length
    modifies buf
    ensures pos == Min(size, |DigitsOf(value, b, caps)|)
    ensures buf[..pos] == Reversed(DigitsOf(value, b, caps))[..pos]
  {
    ghost var all := Reversed(DigitsOf(value, b, caps));
    pos := 0;
    var v: nat := value;
    ghost var left := all;
    while true
      invariant 0 <= pos < size && left == Reversed(DigitsOf(v, b, caps))
      invariant all == buf[..pos] + left
      decreases v
    {
      var d, q := v % b, v / b;
      LastDigit(v, b, caps, d, q);
      MoveOne(all, buf[..pos], left);
      ghost var done := buf[..pos];
      buf[pos] := DigitChar(d, caps);
      pos := pos + 1;
      assert buf[..pos] == done + [left[0]];
      v, left := q, left[1..];
      if v == 0 || pos == size {
        break;
      }
    }
  }
}
