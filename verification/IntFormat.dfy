/** fmtstr and fmtint of lib/snprintf.c: the text they emit, and how it relates to
    section 7.19.6.1 of ISO/IEC 9899:1999. */
module IntFormat {
  import opened Base
  import opened Sink
  import opened Digits

  datatype Flags = Flags(
    minus: bool, plus: bool, space: bool, num: bool, zero: bool, quote: bool,
    up: bool, unsign: bool, typeG: bool, typeE: bool)

  const NoFlags := Flags(false, false, false, false, false, false, false, false, false, false)

  // ---------- strings ----------

  /** The characters fmtstr shows of a string; -1 is no precision, NULL a word. */
  function StrShown(value: Option<string>, precision: int): seq<char> {
    var s := if value.Some? then value.value else "(null)";
    if precision == -1 then s else s[..Min(|s|, Max(precision, 0))]
  }

  function Padded(body: seq<char>, width: int, left: bool): (r: seq<char>)
    ensures |r| == Max(width, |body|)
  {
    var pad := Repeat(' ', width - |body|);
    if left then body + pad else pad + body
  }

  method FmtStr(out: Out, value: Option<string>, width: int, precision: int, flags: Flags)
    requires out.Valid()
    modifies out, out.str
    ensures out.Valid()
    ensures out.text == old(out.text) + Padded(StrShown(value, precision), width, flags.minus)
  {
    var s := if value.Some? then value.value else "(null)";
    var noprecision := precision == -1;
    var strln := 0;
    while strln < |s| && (noprecision || strln < precision)
      invariant 0 <= strln <= |s| && (noprecision || strln <= Max(precision, 0))
    {
      strln := strln + 1;
    }
    ghost var shown := StrShown(value, precision);
    assert s[..strln] == shown;
    var padlen := Max(width - strln, 0);
    if flags.minus {
      padlen := -padlen;
    }
    ghost var before := out.text;
    out.EmitRun(' ', padlen);
    out.EmitAll(s[..strln]);
    out.EmitRun(' ', -padlen);
    Layout3(before, Repeat(' ', padlen), shown, Repeat(' ', -padlen));
  }

  /** Emitting piece after piece emits their concatenation; an empty piece is nothing. */
  lemma Layout3(before: seq<char>, a: seq<char>, b: seq<char>, c: seq<char>)
    ensures ((before + a) + b) + c == before + ((a + b) + c)
    ensures a == [] ==> (a + b) + c == b + c
    ensures c == [] ==> (a + b) + c == a + b
  {
  }

  // ---------- separators ----------

  /** getnumsep without its string: how many separators `n` digits get. */
  function NumSeps(n: nat): int {
    (n - if n % 3 == 0 then 1 else 0) / 3
  }

  /** The digits with `sep` behind every digit that has a positive multiple of three after it. */
  function Grouped(s: seq<char>, sep: seq<char>): (r: seq<char>)
    decreases |s|
  {
    if s == [] then []
    else [s[0]] + (if |s| > 1 && (|s| - 1) % 3 == 0 then sep else []) + Grouped(s[1..], sep)
  }

  /** The characters spent on separators are the ones getnumsep announced, for
      every digit count and every separator string. */
  lemma {:induction false} GroupedLength(s: seq<char>, sep: seq<char>)
    requires s != []
    ensures |Grouped(s, sep)| == |s| + NumSeps(|s|) * |sep|
    decreases |s|
  {
    if |s| == 1 {
      assert s[1..] == [];
      assert NumSeps(1) * |sep| == 0;
    } else {
      var n := |s| - 1;
      GroupedLength(s[1..], sep);
      if n % 3 == 0 {
        assert NumSeps(n + 1) == NumSeps(n) + 1;
        assert (NumSeps(n) + 1) * |sep| == NumSeps(n) * |sep| + |sep|;
      } else {
        assert NumSeps(n + 1) == NumSeps(n);
      }
    }
  }

  lemma {:induction false} GroupedWithout(s: seq<char>)
    ensures Grouped(s, []) == s
    decreases |s|
  {
    if s != [] {
      GroupedWithout(s[1..]);
      assert [s[0]] + s[1..] == s;
    }
  }

  /** The loop that prints the digits of a reversed buffer with their separators. */
  method EmitDigits(out: Out, buf: array<char>, n: nat, ghost digits: seq<char>, sep: seq<char>, separators: int)
    requires out.Valid() && buf != out.str && n == |digits| <= buf.Length
    requires buf[..n] == Reversed(digits)
    modifies out, out.str
    ensures out.Valid()
    ensures out.text == old(out.text) + Grouped(digits, if separators > 0 then sep else [])
  {
    var pos := n;
    ghost var left := digits;
    ghost var s := if separators > 0 then sep else [];
    ghost var goal := out.text + Grouped(digits, s);
    while pos > 0
      invariant 0 <= pos <= n && left == digits[n - pos..] && buf[..n] == Reversed(digits)
      invariant out.Valid() && out.text + Grouped(left, s) == goal
    {
      pos := pos - 1;
      assert buf[pos] == buf[..n][pos] == digits[n - 1 - pos] == left[0];
      ghost var before := out.text;
      out.Emit(buf[pos]);
      if separators > 0 && pos > 0 && pos % 3 == 0 {
        out.EmitAll(sep);
      }
      ghost var group := if pos > 0 && pos % 3 == 0 then s else [];
      Layout3(before, [left[0]], group, Grouped(left[1..], s));
      assert left[1..] == digits[n - pos..];
      left := left[1..];
    }
  }

  // ---------- integers ----------

  function SignOf(value: int, flags: Flags): seq<char> {
    if flags.unsign then ""
    else if value < 0 then "-"
    else if flags.plus then "+"
    else if flags.space then " "
    else ""
  }

  function Abs(value: int): nat {
    if value >= 0 then value else -value
  }

  function PrefixOf(value: int, b: base, flags: Flags): seq<char> {
    if flags.num && value != 0 && b == 16 then (if flags.up then "0X" else "0x") else ""
  }

  /** The precision as raised for '#' with base 8. */
  function RaisedPrecision(value: int, b: base, precision: int, pos: nat, flags: Flags): int {
    if flags.num && value != 0 && b == 8 && precision <= pos then pos + 1 else precision
  }

  /** The lengths fmtint works with. */
  datatype Plan = Plan(separators: int, zpad: int, spad: int)

  function PlanOf(value: int, b: base, width: int, precision: int, flags: Flags, sep: seq<char>): Plan {
    var pos := |DigitsOf(Abs(value), b, flags.up)|;
    var prec := RaisedPrecision(value, b, precision, pos, flags);
    var seps := if flags.quote then NumSeps(pos) * |sep| else 0;
    var zpad := Max(prec - pos - seps, 0);
    var spad := Max(width - seps - Max(prec, pos) - |SignOf(value, flags)| - |PrefixOf(value, b, flags)|, 0);
    if !flags.minus && flags.zero && precision == -1 then Plan(seps, zpad + spad, 0) else Plan(seps, zpad, spad)
  }

  /** Everything but the blanks. */
  function IntBody(value: int, b: base, flags: Flags, sep: seq<char>, plan: Plan): seq<char> {
    SignOf(value, flags) + PrefixOf(value, b, flags) + Repeat('0', plan.zpad)
    + Grouped(DigitsOf(Abs(value), b, flags.up), if plan.separators > 0 then sep else [])
  }

  /** The text of an integer conversion. */
  function IntText(value: int, b: base, width: int, precision: int, flags: Flags, sep: seq<char>): seq<char> {
    var plan := PlanOf(value, b, width, precision, flags, sep);
    var body := IntBody(value, b, flags, sep, plan);
    if flags.minus then body + Repeat(' ', plan.spad) else Repeat(' ', plan.spad) + body
  }

  /** The lengths in the middle of fmtint; a left-justified field counts its blanks negative. */
  method Measure(value: int, b: base, width: int, precision: int, flags: Flags, sep: seq<char>, pos: nat)
    returns (separators: int, zpadlen: int, spadlen: int)
    requires pos == |DigitsOf(Abs(value), b, flags.up)|
    ensures PlanOf(value, b, width, precision, flags, sep) == Plan(separators, zpadlen, Abs(spadlen))
    ensures if flags.minus then spadlen <= 0 else spadlen >= 0
  {
    var prec := precision;
    if flags.num && value != 0 && b == 8 && prec <= pos {
      prec := pos + 1;
    }
    separators := 0;
    if flags.quote {
      separators := NumSeps(pos) * |sep|;
    }
    zpadlen := Max(prec - pos - separators, 0);
    spadlen := Max(width - separators - Max(prec, pos) - |SignOf(value, flags)| - |PrefixOf(value, b, flags)|, 0);
    if flags.minus {
      spadlen := -spadlen;
    } else if flags.zero && precision == -1 {
      zpadlen := zpadlen + spadlen;
      spadlen := 0;
    }
  }

  method FmtInt(out: Out, value: int, b: base, width: int, precision: int, flags: Flags, sep: seq<char>)
    requires out.Valid() && Abs(value) <= UINTMAX_MAX
    modifies out, out.str
    ensures out.Valid()
    ensures out.text == old(out.text) + IntText(value, b, width, precision, flags, sep)
  {
    var iconvert := new char[43];
    ghost var digits := DigitsOf(Abs(value), b, flags.up);
    DigitsFit(Abs(value), b, flags.up);
    var pos := Convert(Abs(value), iconvert, iconvert.Length, b, flags.up);
    assert Reversed(digits)[..pos] == Reversed(digits);
    var separators, zpadlen, spadlen := Measure(value, b, width, precision, flags, sep, pos);
    EmitInt(out, spadlen, SignOf(value, flags), PrefixOf(value, b, flags), zpadlen,
            iconvert, pos, digits, sep, separators);
    SamePadding(IntBody(value, b, flags, sep, Plan(separators, zpadlen, Abs(spadlen))), spadlen, flags.minus);
  }

  lemma SamePadding(body: seq<char>, spadlen: int, left: bool)
    requires if left then spadlen <= 0 else spadlen >= 0
    ensures (if spadlen < 0 then body + Repeat(' ', -spadlen) else Repeat(' ', spadlen) + body) ==
            if left then body + Repeat(' ', Abs(spadlen)) else Repeat(' ', Abs(spadlen)) + body
  {
    if spadlen == 0 {
      assert body + [] == body == [] + body;
    }
  }

  /** The second half of fmtint: a negative amount of blanks goes behind. */
  method EmitInt(out: Out, spadlen: int, sign: seq<char>, hexprefix: seq<char>, zpadlen: int,
                 iconvert: array<char>, pos: nat, ghost digits: seq<char>, sep: seq<char>, separators: int)
    requires out.Valid() && iconvert != out.str && pos == |digits| <= iconvert.Length
    requires iconvert[..pos] == Reversed(digits)
    modifies out, out.str
    ensures out.Valid()
    ensures
      var body := sign + hexprefix + Repeat('0', zpadlen) + Grouped(digits, if separators > 0 then sep else []);
      out.text == old(out.text) + if spadlen < 0 then body + Repeat(' ', -spadlen) else Repeat(' ', spadlen) + body
  {
    ghost var before := out.text;
    out.EmitRun(' ', spadlen);
    ghost var t := out.text;
    out.EmitAll(sign);
    out.EmitAll(hexprefix);
    out.EmitRun('0', zpadlen);
    EmitDigits(out, iconvert, pos, digits, sep, separators);
    ghost var body := sign + hexprefix + Repeat('0', zpadlen) + Grouped(digits, if separators > 0 then sep else []);
    Layout4(t, sign, hexprefix, Repeat('0', zpadlen), Grouped(digits, if separators > 0 then sep else []));
    out.EmitRun(' ', -spadlen);
    Layout3(before, Repeat(' ', spadlen), body, Repeat(' ', -spadlen));
  }

  lemma Layout4(t: seq<char>, a: seq<char>, b: seq<char>, c: seq<char>, d: seq<char>)
    ensures (((t + a) + b) + c) + d == t + (((a + b) + c) + d)
  {
  }

  // ---------- what the text says ----------

  /** Without the quote flag the text has exactly the width, or what sign, prefix
      and the larger of precision and digit count need. */
  lemma IntLength(value: int, b: base, width: int, precision: int, flags: Flags, sep: seq<char>)
    requires !flags.quote
    ensures
      var pos := |DigitsOf(Abs(value), b, flags.up)|;
      var prec := RaisedPrecision(value, b, precision, pos, flags);
      |IntText(value, b, width, precision, flags, sep)| ==
        Max(width, |SignOf(value, flags)| + |PrefixOf(value, b, flags)| + Max(prec, pos))
  {
    GroupedWithout(DigitsOf(Abs(value), b, flags.up));
  }

  /** The digits shown, leading zeros included. */
  function DigitsShown(value: int, b: base, width: int, precision: int, flags: Flags): seq<char> {
    Repeat('0', PlanOf(value, b, width, precision, flags, []).zpad) + DigitsOf(Abs(value), b, flags.up)
  }

  /** Blanks, sign, prefix, digits, blanks: the text falls into these parts. */
  function Assembled(value: int, b: base, flags: Flags, digits: seq<char>, blanks: int): seq<char> {
    var body := SignOf(value, flags) + PrefixOf(value, b, flags) + digits;
    if flags.minus then body + Repeat(' ', blanks) else Repeat(' ', blanks) + body
  }

  lemma IntTextParts(value: int, b: base, width: int, precision: int, flags: Flags, sep: seq<char>)
    requires !flags.quote
    ensures IntText(value, b, width, precision, flags, sep) ==
            Assembled(value, b, flags, DigitsShown(value, b, width, precision, flags),
                      PlanOf(value, b, width, precision, flags, []).spad)
  {
    var ds := DigitsOf(Abs(value), b, flags.up);
    GroupedWithout(ds);
    var plan := PlanOf(value, b, width, precision, flags, []);
    assert PlanOf(value, b, width, precision, flags, sep) == plan;
    ConcatAssoc(SignOf(value, flags) + PrefixOf(value, b, flags), Repeat('0', plan.zpad), ds);
  }

  // ---------- reading back ----------

  function SkipBlanks(s: seq<char>): seq<char> {
    if s != [] && s[0] == ' ' then SkipBlanks(s[1..]) else s
  }

  /** The digits at the front. */
  function DigitRun(s: seq<char>, b: base): (r: seq<char>)
    ensures AllDigits(r, b) && |r| <= |s|
  {
    if s != [] && 0 <= DigitVal(s[0]) < b then [s[0]] + DigitRun(s[1..], b) else []
  }

  predicate HasPrefix(u: seq<char>) {
    |u| >= 2 && u[0] == '0' && (u[1] == 'x' || u[1] == 'X')
  }

  /** An optional prefix in base 16, then digits. */
  function ReadMagnitude(u: seq<char>, b: base): nat {
    Read(DigitRun(if b == 16 && HasPrefix(u) then u[2..] else u, b), b)
  }

  function ReadSigned(t: seq<char>, b: base): int {
    if t != [] && t[0] == '-' then -(ReadMagnitude(t[1..], b) as int)
    else if t != [] && t[0] == '+' then ReadMagnitude(t[1..], b)
    else ReadMagnitude(t, b)
  }

  /** Reads an integer as strtol does: blanks, a sign, a prefix in base 16, digits. */
  function ReadInt(s: seq<char>, b: base): int {
    ReadSigned(SkipBlanks(s), b)
  }

  lemma {:induction false} SkipRepeat(n: int, s: seq<char>)
    ensures SkipBlanks(Repeat(' ', n) + s) == SkipBlanks(s)
    decreases n
  {
    if n <= 0 {
      assert Repeat(' ', n) + s == s;
    } else {
      ConcatAssoc(Repeat(' ', n - 1), [' '], s);
      SkipRepeat(n - 1, [' '] + s);
      assert ([' '] + s)[1..] == s;
    }
  }

  lemma {:induction false} RunStops(ds: seq<char>, rest: seq<char>, b: base)
    requires AllDigits(ds, b) && (rest == [] || !(0 <= DigitVal(rest[0]) < b))
    ensures DigitRun(ds + rest, b) == ds
    decreases |ds|
  {
    if ds == [] {
      assert ds + rest == rest;
    } else {
      assert (ds + rest)[0] == ds[0] && (ds + rest)[1..] == ds[1..] + rest;
      RunStops(ds[1..], rest, b);
      assert [ds[0]] + ds[1..] == ds;
    }
  }

  lemma MagnitudeReads(value: int, b: base, flags: Flags, ds: seq<char>, rest: seq<char>)
    requires ds != [] && AllDigits(ds, b) && Read(ds, b) == Abs(value)
    requires rest == [] || rest[0] == ' '
    ensures
      var u := PrefixOf(value, b, flags) + (ds + rest);
      ReadMagnitude(u, b) == Abs(value) && u != [] && 0 <= DigitVal(u[0])
  {
    var prefix := PrefixOf(value, b, flags);
    var tail := ds + rest;
    var u := prefix + tail;
    assert tail[0] == ds[0];
    RunStops(ds, rest, b);
    if prefix != "" {
      assert u[2..] == tail;
    } else {
      assert u == tail;
      NoPrefix(ds, rest, b);
    }
  }

  /** Digits alone are never taken for a prefix. */
  lemma NoPrefix(ds: seq<char>, rest: seq<char>, b: base)
    requires ds != [] && AllDigits(ds, b) && (rest == [] || rest[0] == ' ')
    ensures !HasPrefix(ds + rest)
  {
    var u := ds + rest;
    if |u| >= 2 {
      assert u[1] == if |ds| > 1 then ds[1] else rest[0];
    }
  }

  /** With its blanks gone, sign, prefix and digits are read off one by one. */
  lemma ReadParts(value: int, b: base, flags: Flags, ds: seq<char>, rest: seq<char>)
    requires ds != [] && AllDigits(ds, b) && Read(ds, b) == Abs(value)
    requires flags.unsign ==> value >= 0
    requires rest == [] || rest[0] == ' '
    ensures ReadInt(SignOf(value, flags) + PrefixOf(value, b, flags) + ds + rest, b) == value
  {
    var sign := SignOf(value, flags);
    var u := PrefixOf(value, b, flags) + (ds + rest);
    MagnitudeReads(value, b, flags, ds, rest);
    Regroup(sign, PrefixOf(value, b, flags), ds, rest);
    var s := sign + u;
    assert sign != "" ==> s[0] == sign[0] && s[1..] == u;
    assert sign == "" ==> s == u;
    assert SkipBlanks(u) == u;
  }

  lemma Regroup(a: seq<char>, b: seq<char>, c: seq<char>, d: seq<char>)
    ensures a + b + c + d == a + (b + (c + d))
  {
  }

  lemma ReadAssembled(value: int, b: base, flags: Flags, ds: seq<char>, blanks: int)
    requires ds != [] && AllDigits(ds, b) && Read(ds, b) == Abs(value)
    requires flags.unsign ==> value >= 0
    ensures ReadInt(Assembled(value, b, flags, ds, blanks), b) == value
  {
    var body := SignOf(value, flags) + PrefixOf(value, b, flags) + ds;
    if flags.minus {
      ReadParts(value, b, flags, ds, Repeat(' ', blanks));
    } else {
      ReadParts(value, b, flags, ds, []);
      assert body + [] == body;
      SkipRepeat(blanks, body);
    }
  }

  /** For every integer, base, width, precision and flags but the quote: reading
      the text back yields the value. */
  lemma IntReadsBack(value: int, b: base, width: int, precision: int, flags: Flags, sep: seq<char>)
    requires !flags.quote && (flags.unsign ==> value >= 0)
    ensures ReadInt(IntText(value, b, width, precision, flags, sep), b) == value
  {
    IntTextParts(value, b, width, precision, flags, sep);
    var plan := PlanOf(value, b, width, precision, flags, []);
    var ds := DigitsShown(value, b, width, precision, flags);
    ReadDigits(Abs(value), b, flags.up);
    ReadZeros(plan.zpad, DigitsOf(Abs(value), b, flags.up), b);
    ReadAssembled(value, b, flags, ds, plan.spad);
  }
}
