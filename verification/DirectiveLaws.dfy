/** Laws of formats: every directive is read as it is written, and formats compose,
    so that nothing is carried from one directive to the next. */
module DirectiveLaws {
  import opened Base
  import opened Sink
  import opened Digits
  import opened IntFormat
  import opened Directive

  // ---------- directives are read as written ----------

  function Opt(b: bool, c: char): seq<char> {
    if b then [c] else []
  }

  function FlagText(f: Flags): seq<char> {
    Opt(f.minus, '-') + (Opt(f.plus, '+') + (Opt(f.space, ' ') + (Opt(f.num, '#') + (Opt(f.zero, '0') + Opt(f.quote, '\'')))))
  }

  function AmountText(a: Amount): seq<char> {
    a.digits + Opt(a.star, '*')
  }

  function PrecisionText(p: Option<Amount>): seq<char> {
    if p.None? then [] else ['.'] + AmountText(p.value)
  }

  function ModText(m: Mod): seq<char> {
    match m
    case NoMod => ""
    case CharMod => "hh"
    case ShortMod => "h"
    case LongMod => "l"
    case LDoubleMod => "L"
    case SizeMod => "z"
    case PtrdiffMod => "t"
    case IntmaxMod => "j"
  }

  /** A directive as section 7.19.6.1, paragraph 4, writes it, without its '%'. */
  function DirectiveText(d: Directive): seq<char>
    requires d.conv.Some?
  {
    FlagText(d.flags) + (AmountText(d.width) + (PrecisionText(d.precision) + (ModText(d.mod) + [d.conv.value])))
  }

  /** Digits are digits, a width does not begin with the flag '0', and the conversion
      is no flag, digit, star, dot or modifier. */
  predicate Canonical(d: Directive) {
    && d.flags == NoFlags.(minus := d.flags.minus, plus := d.flags.plus, space := d.flags.space,
                           num := d.flags.num, zero := d.flags.zero, quote := d.flags.quote)
    && (forall c :: c in d.width.digits ==> IsDigit(c))
    && (d.width.digits != [] ==> d.width.digits[0] != '0')
    && (d.precision.Some? ==> forall c :: c in d.precision.value.digits ==> IsDigit(c))
    && d.conv.Some? && IsConversion(d.conv.value)
  }

  predicate IsConversion(c: char) {
    !IsFlag(c) && !IsDigit(c) && c != '*' && c != '.' && c !in "hlLjtz"
  }

  lemma FlagsStep(b: bool, c: char, s: seq<char>, d: Directive)
    requires IsFlag(c)
    ensures ParseFlags(Opt(b, c) + s, d) == ParseFlags(s, if b then d.(flags := WithFlag(d.flags, c)) else d)
  {
    if b {
      assert ([c] + s)[1..] == s;
    } else {
      assert [] + s == s;
    }
  }

  lemma FlagsRead(f: Flags, s: seq<char>)
    requires f == NoFlags.(minus := f.minus, plus := f.plus, space := f.space, num := f.num, zero := f.zero, quote := f.quote)
    requires s != [] && !IsFlag(s[0])
    ensures ParseFlags(FlagText(f) + s, Blank) == ParseWidth(s, Blank.(flags := f))
  {
    var f1 := if f.minus then WithFlag(NoFlags, '-') else NoFlags;
    var f2 := if f.plus then WithFlag(f1, '+') else f1;
    var f3 := if f.space then WithFlag(f2, ' ') else f2;
    var f4 := if f.num then WithFlag(f3, '#') else f3;
    var f5 := if f.zero then WithFlag(f4, '0') else f4;
    var t5 := Opt(f.quote, '\'') + s;
    var t4 := Opt(f.zero, '0') + t5;
    var t3 := Opt(f.num, '#') + t4;
    var t2 := Opt(f.space, ' ') + t3;
    var t1 := Opt(f.plus, '+') + t2;
    FlagsStep(f.minus, '-', t1, Blank);
    FlagsStep(f.plus, '+', t2, Blank.(flags := f1));
    FlagsStep(f.space, ' ', t3, Blank.(flags := f2));
    FlagsStep(f.num, '#', t4, Blank.(flags := f3));
    FlagsStep(f.zero, '0', t5, Blank.(flags := f4));
    FlagsStep(f.quote, '\'', s, Blank.(flags := f5));
    SixPieces(Opt(f.minus, '-'), Opt(f.plus, '+'), Opt(f.space, ' '), Opt(f.num, '#'), Opt(f.zero, '0'), Opt(f.quote, '\''), s);
  }

  lemma SixPieces(a: seq<char>, b: seq<char>, c: seq<char>, d: seq<char>, e: seq<char>, f: seq<char>, s: seq<char>)
    ensures (a + (b + (c + (d + (e + f))))) + s == a + (b + (c + (d + (e + (f + s)))))
  {
  }

  lemma {:induction false} WidthRead(ds: seq<char>, star: bool, s: seq<char>, d: Directive)
    requires (forall c :: c in ds ==> IsDigit(c)) && !d.width.star
    requires s != [] && !IsDigit(s[0]) && s[0] != '*'
    ensures ParseWidth(ds + (Opt(star, '*') + s), d) ==
            ParseDot(s, d.(width := Amount(d.width.digits + ds, star)))
    decreases |ds|
  {
    var t := Opt(star, '*') + s;
    if ds == [] {
      assert ds + t == t && d.width.digits + [] == d.width.digits;
      if star {
        assert t[0] == '*' && t[1..] == s;
      } else {
        assert t == s;
      }
    } else {
      assert (ds + t)[0] == ds[0] && (ds + t)[1..] == ds[1..] + t;
      WidthRead(ds[1..], star, s, d.(width := MoreDigits(d.width, ds[0])));
      assert (d.width.digits + [ds[0]]) + ds[1..] == d.width.digits + ds;
    }
  }

  lemma {:induction false} PrecisionRead(ds: seq<char>, star: bool, s: seq<char>, d: Directive, p: Amount)
    requires (forall c :: c in ds ==> IsDigit(c)) && !p.star
    requires s != [] && !IsDigit(s[0]) && s[0] != '*'
    ensures ParsePrecision(ds + (Opt(star, '*') + s), d, p) ==
            ParseMod(s, d.(precision := Some(Amount(p.digits + ds, star))))
    decreases |ds|
  {
    var t := Opt(star, '*') + s;
    if ds == [] {
      assert ds + t == t && p.digits + [] == p.digits;
      if star {
        assert t[0] == '*' && t[1..] == s;
      } else {
        assert t == s;
      }
    } else {
      assert (ds + t)[0] == ds[0] && (ds + t)[1..] == ds[1..] + t;
      PrecisionRead(ds[1..], star, s, d, MoreDigits(p, ds[0]));
      assert (p.digits + [ds[0]]) + ds[1..] == p.digits + ds;
    }
  }

  lemma DotStarts(t: seq<char>, d: Directive)
    ensures ParseDot(['.'] + t, d) == ParsePrecision(t, d, NoAmount)
  {
    var s := ['.'] + t;
    assert s[0] == '.' && s[1..] == t;
  }

  lemma DotRead(p: Option<Amount>, s: seq<char>, d: Directive)
    requires p.Some? ==> forall c :: c in p.value.digits ==> IsDigit(c)
    requires d.precision.None? && s != [] && !IsDigit(s[0]) && s[0] != '*' && s[0] != '.'
    ensures ParseDot(PrecisionText(p) + s, d) == ParseMod(s, d.(precision := p))
  {
    if p.Some? {
      var a := p.value;
      var t := a.digits + (Opt(a.star, '*') + s);
      assert PrecisionText(p) + s == ['.'] + t;
      DotStarts(t, d);
      PrecisionRead(a.digits, a.star, s, d, NoAmount);
      assert [] + a.digits == a.digits;
    } else {
      assert [] + s == s;
    }
  }

  lemma ModRead(m: Mod, c: char, t: seq<char>, d: Directive)
    requires IsConversion(c)
    ensures ParseMod(ModText(m) + ([c] + t), d) == Parsed(d.(mod := m, conv := Some(c)), t)
  {
    var s := ModText(m) + ([c] + t);
    assert s[|ModText(m)|..] == [c] + t;
    assert ([c] + t)[1..] == t;
    assert |ModText(m)| == 0 ==> s[0] == c;
    assert |ModText(m)| == 1 ==> s[0] == ModText(m)[0] && s[1] == c;
    assert |ModText(m)| == 2 ==> s[0] == ModText(m)[0] && s[1] == ModText(m)[1];
    assert ModOf(s) == (m, |ModText(m)|);
  }

  lemma ModStarts(m: Mod, c: char, t: seq<char>)
    requires IsConversion(c)
    ensures
      var s := ModText(m) + ([c] + t);
      s != [] && !IsFlag(s[0]) && !IsDigit(s[0]) && s[0] != '*' && s[0] != '.'
  {
    var s := ModText(m) + ([c] + t);
    assert s[0] == if |ModText(m)| == 0 then c else ModText(m)[0];
  }

  /** Every directive is read as it is written, and reading stops right behind it. */
  lemma DirectiveRoundTrip(d: Directive, t: seq<char>)
    requires Canonical(d)
    ensures ParseFlags(DirectiveText(d) + t, Blank) == Parsed(d, t)
  {
    var w, p, m, c := AmountText(d.width), PrecisionText(d.precision), ModText(d.mod), [d.conv.value];
    var s3 := m + (c + t);
    var s2 := p + s3;
    var s1 := d.width.digits + (Opt(d.width.star, '*') + s2);
    FivePieces(FlagText(d.flags), d.width.digits, Opt(d.width.star, '*'), p, m, c, t);
    ModStarts(d.mod, d.conv.value, t);
    assert s2[0] == if p == [] then s3[0] else '.';
    assert s1[0] == if d.width.digits != [] then d.width.digits[0] else if d.width.star then '*' else s2[0];
    assert d.width.digits != [] ==> d.width.digits[0] in d.width.digits;
    FlagsRead(d.flags, s1);
    WidthRead(d.width.digits, d.width.star, s2, Blank.(flags := d.flags));
    assert [] + d.width.digits == d.width.digits;
    DotRead(d.precision, s3, Blank.(flags := d.flags, width := d.width));
    ModRead(d.mod, c[0], t, Blank.(flags := d.flags, width := d.width, precision := d.precision));
  }

  lemma FivePieces(f: seq<char>, ds: seq<char>, st: seq<char>, p: seq<char>, m: seq<char>, c: seq<char>, t: seq<char>)
    ensures (f + ((ds + st) + (p + (m + c)))) + t == f + (ds + (st + (p + (m + (c + t)))))
  {
  }

  // ---------- widths and precisions ----------

  lemma DigitsAreDecimals(ds: seq<char>)
    requires forall c :: c in ds ==> IsDigit(c)
    ensures Decimals(ds)
  {
    assert forall i :: 0 <= i < |ds| ==> ds[i] in ds;
  }

  predicate Within(a: Amount)
    requires Decimals(a.digits)
  {
    Read(a.digits, 10) <= INT_MAX
  }

  predicate PlainAmounts(d: Directive) {
    && !d.width.star && Decimals(d.width.digits)
    && (d.precision.Some? ==> !d.precision.value.star && Decimals(d.precision.value.digits))
  }

  /** Width and precision, if any, are numbers up to INT_MAX. */
  predicate Accepted(d: Directive)
    requires PlainAmounts(d)
  {
    Within(d.width) && (d.precision.Some? ==> Within(d.precision.value))
  }

  function PrecisionNumber(d: Directive): int
    requires PlainAmounts(d)
  {
    if d.precision.None? then -1 else Read(d.precision.value.digits, 10)
  }

  lemma AmountsShow(d: Directive, sep: seq<char>, args: seq<Arg>)
    requires PlainAmounts(d) && d.conv.Some?
    ensures ShowDirective(d, sep, args) ==
            if Accepted(d)
            then ShowConv(d.conv.value, d.mod, d.flags, Read(d.width.digits, 10), PrecisionNumber(d), sep, args)
            else TooLarge
  {
  }

  lemma RenderWritten(d: Directive, t: seq<char>, sep: seq<char>, args: seq<Arg>)
    requires Canonical(d)
    ensures Render(['%'] + (DirectiveText(d) + t), sep, args) == After(ShowDirective(d, sep, args), t, sep)
  {
    var s := ['%'] + (DirectiveText(d) + t);
    assert s[0] == '%' && s[1..] == DirectiveText(d) + t;
    DirectiveRoundTrip(d, t);
    assert Render(s, sep, args) == Finish(Parsed(d, t), sep, args);
  }

  /** For every directive: a decimal width and precision are accepted if and only if they
      are at most INT_MAX. Then the conversion is done with these two numbers; otherwise
      printing stops with an overflow, whatever follows. */
  lemma AcceptedIff(d: Directive, t: seq<char>, sep: seq<char>, args: seq<Arg>)
    requires Canonical(d) && !d.width.star && (d.precision.Some? ==> !d.precision.value.star)
    ensures PlainAmounts(d)
    ensures Render(['%'] + (DirectiveText(d) + t), sep, args) ==
            if Accepted(d)
            then After(ShowConv(d.conv.value, d.mod, d.flags, Read(d.width.digits, 10), PrecisionNumber(d), sep, args),
                       t, sep)
            else Overflowed([])
  {
    DigitsAreDecimals(d.width.digits);
    if d.precision.Some? {
      DigitsAreDecimals(d.precision.value.digits);
    }
    RenderWritten(d, t, sep, args);
    AmountsShow(d, sep, args);
  }

  // ---------- the modifier ll ----------

  /** A length modifier as it can be written; `ll` is not among those the library reads. */
  datatype Length = Known(mod: Mod) | LongLong

  function LengthText(l: Length): seq<char> {
    if l.LongLong? then "ll" else ModText(l.mod)
  }

  /** A directive with any modifier of section 7.19.6.1, paragraph 7. */
  function WrittenText(d: Directive, l: Length): seq<char>
    requires d.conv.Some?
  {
    FlagText(d.flags) + (AmountText(d.width) + (PrecisionText(d.precision) + (LengthText(l) + [d.conv.value])))
  }

  /** What is read of a directive with `ll`: one with `l` whose conversion is the other l. */
  function Misread(d: Directive): Directive {
    d.(mod := LongMod, conv := Some('l'))
  }

  lemma LongLongRead(c: char, t: seq<char>, d: Directive)
    ensures ParseMod("ll" + ([c] + t), d) == Parsed(Misread(d), [c] + t)
  {
    var s := "ll" + ([c] + t);
    assert s[0] == 'l' && s[1..] == ['l'] + ([c] + t);
    assert (['l'] + ([c] + t))[1..] == [c] + t;
  }

  /** For every written directive, it is read as itself up to its end if and only if its
      modifier is not `ll`; with `ll` reading stops before the conversion, which is left
      over as text. */
  lemma WrittenRoundTripIff(d: Directive, l: Length, t: seq<char>)
    requires Canonical(d) && (l.Known? ==> l.mod == d.mod)
    ensures ParseFlags(WrittenText(d, l) + t, Blank) ==
            if l.LongLong? then Parsed(Misread(d), [d.conv.value] + t) else Parsed(d, t)
    ensures ParseFlags(WrittenText(d, l) + t, Blank).rest == t <==> !l.LongLong?
  {
    if l.Known? {
      DirectiveRoundTrip(d, t);
    } else {
      LongLongMisread(d, t);
      assert |[d.conv.value] + t| == |t| + 1;
    }
  }

  lemma LongLongMisread(d: Directive, t: seq<char>)
    requires Canonical(d)
    ensures ParseFlags(WrittenText(d, LongLong) + t, Blank) == Parsed(Misread(d), [d.conv.value] + t)
  {
    var p, c := PrecisionText(d.precision), [d.conv.value];
    var s3 := "ll" + (c + t);
    var s2 := p + s3;
    var s1 := d.width.digits + (Opt(d.width.star, '*') + s2);
    FivePieces(FlagText(d.flags), d.width.digits, Opt(d.width.star, '*'), p, "ll", c, t);
    assert s3[0] == 'l';
    assert s2[0] == if p == [] then 'l' else '.';
    assert s1[0] == if d.width.digits != [] then d.width.digits[0] else if d.width.star then '*' else s2[0];
    assert d.width.digits != [] ==> d.width.digits[0] in d.width.digits;
    FlagsRead(d.flags, s1);
    WidthRead(d.width.digits, d.width.star, s2, Blank.(flags := d.flags));
    assert [] + d.width.digits == d.width.digits;
    DotRead(d.precision, s3, Blank.(flags := d.flags, width := d.width));
    LongLongRead(c[0], t, Blank.(flags := d.flags, width := d.width, precision := d.precision));
  }

  /** So with `ll` no argument is taken and the conversion letter is printed. */
  lemma LongLongPrintsLetter(d: Directive, t: seq<char>, sep: seq<char>, args: seq<Arg>)
    requires Canonical(d) && d.conv.value != '%' && PlainAmounts(d) && Accepted(d)
    ensures Render(['%'] + (WrittenText(d, LongLong) + t), sep, args) == Prepend([d.conv.value], Render(t, sep, args))
  {
    var rest := [d.conv.value] + t;
    RenderDirective(WrittenText(d, LongLong) + t, sep, args);
    LongLongMisread(d, t);
    MisreadShows(d, sep, args);
    NothingInFront(Render(rest, sep, args));
    LetterPrinted(d.conv.value, t, sep, args);
  }

  lemma RenderDirective(s: seq<char>, sep: seq<char>, args: seq<Arg>)
    ensures Render(['%'] + s, sep, args) == Finish(ParseFlags(s, Blank), sep, args)
  {
    var all := ['%'] + s;
    assert all[0] == '%' && all[1..] == s;
  }

  lemma LetterPrinted(c: char, t: seq<char>, sep: seq<char>, args: seq<Arg>)
    requires c != '%'
    ensures Render([c] + t, sep, args) == Prepend([c], Render(t, sep, args))
  {
    var s := [c] + t;
    assert s[0] == c && s[1..] == t;
  }

  /** The second 'l' is a conversion that prints nothing. */
  lemma MisreadShows(d: Directive, sep: seq<char>, args: seq<Arg>)
    requires PlainAmounts(d) && Accepted(d)
    ensures ShowDirective(Misread(d), sep, args) == Shows("", args)
  {
    AmountsShow(Misread(d), sep, args);
  }

  /** "%lld" of any argument prints "d" and leaves the argument for the next directive. */
  lemma LongLongFails(n: word64, sep: seq<char>)
    ensures Render("%lld", sep, [Word64(n)]) == Text("d", [Word64(n)])
  {
    var d := Blank.(conv := Some('d'));
    assert WrittenText(d, LongLong) == "lld";
    assert Read([], 10) == 0;
    assert ['%'] + (WrittenText(d, LongLong) + []) == "%lld";
    LongLongPrintsLetter(d, [], sep, [Word64(n)]);
    assert ['d'] + [] == "d";
  }

  // ---------- formats compose ----------

  /** Text added behind a directive that is whole stays behind it. */
  ghost predicate Stays(p: Parsed, q: Parsed, t: seq<char>) {
    p.d.conv.Some? ==> q == Parsed(p.d, p.rest + t)
  }

  lemma ConvStays(s: seq<char>, t: seq<char>, d: Directive)
    requires d.conv.None?
    ensures Stays(ParseConv(s, d), ParseConv(s + t, d), t)
  {
    if s != [] {
      assert (s + t)[0] == s[0] && (s + t)[1..] == s[1..] + t;
    }
  }

  lemma ModStays(s: seq<char>, t: seq<char>, d: Directive)
    requires d.conv.None?
    ensures Stays(ParseMod(s, d), ParseMod(s + t, d), t)
  {
    var (m, n) := ModOf(s);
    if s[n..] != [] {
      assert (s + t)[0] == s[0] && (|s| > 1 ==> (s + t)[1] == s[1]);
      assert ModOf(s + t) == (m, n);
      assert (s + t)[n..] == s[n..] + t;
      ConvStays(s[n..], t, d.(mod := m));
    }
  }

  lemma {:induction false} PrecisionStays(s: seq<char>, t: seq<char>, d: Directive, p: Amount)
    requires d.conv.None?
    ensures Stays(ParsePrecision(s, d, p), ParsePrecision(s + t, d, p), t)
    decreases |s|
  {
    if s != [] {
      assert (s + t)[0] == s[0] && (s + t)[1..] == s[1..] + t;
      if IsDigit(s[0]) {
        PrecisionStays(s[1..], t, d, MoreDigits(p, s[0]));
      } else if s[0] == '*' {
        ModStays(s[1..], t, d.(precision := Some(p.(star := true))));
      } else {
        ModStays(s, t, d.(precision := Some(p)));
      }
    }
  }

  lemma DotStays(s: seq<char>, t: seq<char>, d: Directive)
    requires d.conv.None?
    ensures Stays(ParseDot(s, d), ParseDot(s + t, d), t)
  {
    if s != [] {
      assert (s + t)[0] == s[0] && (s + t)[1..] == s[1..] + t;
      if s[0] == '.' {
        PrecisionStays(s[1..], t, d, NoAmount);
      } else {
        ModStays(s, t, d);
      }
    }
  }

  lemma {:induction false} WidthStays(s: seq<char>, t: seq<char>, d: Directive)
    requires d.conv.None?
    ensures Stays(ParseWidth(s, d), ParseWidth(s + t, d), t)
    decreases |s|
  {
    if s != [] {
      assert (s + t)[0] == s[0] && (s + t)[1..] == s[1..] + t;
      if IsDigit(s[0]) {
        WidthStays(s[1..], t, d.(width := MoreDigits(d.width, s[0])));
      } else if s[0] == '*' {
        DotStays(s[1..], t, d.(width := d.width.(star := true)));
      } else {
        DotStays(s, t, d);
      }
    }
  }

  lemma {:induction false} FlagsStay(s: seq<char>, t: seq<char>, d: Directive)
    requires d.conv.None?
    ensures Stays(ParseFlags(s, d), ParseFlags(s + t, d), t)
    decreases |s|
  {
    if s != [] {
      assert (s + t)[0] == s[0] && (s + t)[1..] == s[1..] + t;
      if IsFlag(s[0]) {
        FlagsStay(s[1..], t, d.(flags := WithFlag(d.flags, s[0])));
      } else {
        WidthStays(s, t, d);
      }
    }
  }

  /** No directive is cut off by the end of the format. */
  predicate Complete(s: seq<char>)
    decreases |s|
  {
    s == [] ||
    if s[0] != '%' then Complete(s[1..])
    else
      ParseShrinks(s[1..], Blank);
      var p := ParseFlags(s[1..], Blank);
      p.d.conv.Some? && Complete(p.rest)
  }

  /** The result of a format, then another format with the arguments that are left. */
  function Then(r: Result, t: seq<char>, sep: seq<char>): Result {
    match r
    case Text(text, more) => Prepend(text, Render(t, sep, more))
    case Overflowed(text) => Overflowed(text)
    case Undefined => Undefined
  }

  lemma ThenPrepend(a: seq<char>, r: Result, t: seq<char>, sep: seq<char>)
    ensures Then(Prepend(a, r), t, sep) == Prepend(a, Then(r, t, sep))
  {
    if r.Text? {
      var tail := Render(t, sep, r.args);
      if !tail.Undefined? {
        ConcatAssoc(a, r.text, tail.text);
      }
    }
  }

  /** Two formats in a row print one after the other: no flag, width, precision,
      modifier or base outlives its directive. */
  lemma {:induction false} FormatsCompose(s: seq<char>, t: seq<char>, sep: seq<char>, args: seq<Arg>)
    requires Complete(s)
    ensures Render(s + t, sep, args) == Then(Render(s, sep, args), t, sep)
    decreases |s|, 0
  {
    if s == [] {
      assert s + t == t;
      NothingInFront(Render(t, sep, args));
    } else {
      assert (s + t)[0] == s[0] && (s + t)[1..] == s[1..] + t;
      if s[0] != '%' {
        FormatsCompose(s[1..], t, sep, args);
        ThenPrepend([s[0]], Render(s[1..], sep, args), t, sep);
      } else {
        ParseShrinks(s[1..], Blank);
        FlagsStay(s[1..], t, Blank);
        var p := ParseFlags(s[1..], Blank);
        DirectiveThen(p, t, sep, args);
      }
    }
  }

  lemma NothingInFront(r: Result)
    ensures Prepend([], r) == r
  {
    if !r.Undefined? {
      assert [] + r.text == r.text;
    }
  }

  lemma DirectiveThen(p: Parsed, t: seq<char>, sep: seq<char>, args: seq<Arg>)
    requires Complete(p.rest)
    ensures Finish(Parsed(p.d, p.rest + t), sep, args) == Then(Finish(p, sep, args), t, sep)
    decreases |p.rest|, 1
  {
    var e := ShowDirective(p.d, sep, args);
    if e.Shows? {
      FormatsCompose(p.rest, t, sep, e.args);
      ThenPrepend(e.text, Render(p.rest, sep, e.args), t, sep);
    }
  }
}
