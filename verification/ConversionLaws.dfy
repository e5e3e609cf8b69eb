/** What each conversion of a written directive prints, from its argument, and that it
    takes exactly one. */
module ConversionLaws {
  import opened Base
  import opened Sink
  import opened Digits
  import opened Decimal
  import opened IntFormat
  import opened Standard = StandardInt
  import opened FloatFormat
  import opened FloatReads
  import opened Directive
  import Laws = DirectiveLaws
  import Accuracy = FloatAccuracy

  /** A directive with its '%' and what follows it. */
  function Written(d: Directive, t: seq<char>): seq<char>
    requires d.conv.Some?
  {
    ['%'] + (Laws.DirectiveText(d) + t)
  }

  /** Its width and precision, if any, are decimal numbers up to INT_MAX. */
  predicate Plain(d: Directive) {
    Laws.Canonical(d) && Laws.PlainAmounts(d) && Laws.Accepted(d)
  }

  function Width(d: Directive): int
    requires Laws.PlainAmounts(d)
  {
    Read(d.width.digits, 10)
  }

  function Precision(d: Directive): (p: int)
    requires Laws.PlainAmounts(d)
    ensures p >= -1
  {
    Laws.PrecisionNumber(d)
  }

  lemma Converts(d: Directive, t: seq<char>, sep: seq<char>, args: seq<Arg>, text: seq<char>, more: seq<Arg>)
    requires Plain(d)
    requires ShowConv(d.conv.value, d.mod, d.flags, Width(d), Precision(d), sep, args) == Shows(text, more)
    ensures Render(Written(d, t), sep, args) == Prepend(text, Render(t, sep, more))
  {
    Laws.RenderWritten(d, t, sep, args);
    Laws.AmountsShow(d, sep, args);
  }

  // ---------- integers ----------

  /** The range of the integer type that a modifier names. */
  function Size(m: Mod): int {
    match m
    case CharMod => 0x100
    case ShortMod => 0x1_0000
    case NoMod => TWO_32
    case LDoubleMod => TWO_32
    case _ => TWO_64
  }

  /** The argument is passed as a word in which `v` is stored modulo the type's range. */
  predicate Stored(m: Mod, a: Arg, v: int) {
    if Size(m) == TWO_64 then a.Word64? && (a.wide - v) % TWO_64 == 0
    else a.Word32? && (a.bits - v) % Size(m) == 0
  }

  /** The argument is the number `v` of the signed type. */
  predicate SignedArg(m: Mod, a: Arg, v: int) {
    -Size(m) / 2 <= v < Size(m) / 2 && Stored(m, a, v)
  }

  /** The argument is the number `v` of the unsigned type. */
  predicate UnsignedArg(m: Mod, a: Arg, v: int) {
    0 <= v < Size(m) && Stored(m, a, v)
  }

  lemma Remainder(word: int, v: int, size: int)
    requires size > 0 && (word - v) % size == 0 && 0 <= v < size
    ensures word % size == v
  {
    var q := (word - v) / size;
    assert word == size * q + v;
    SameRemainder(word, size, q, v, word / size, word % size);
  }

  lemma SameRemainder(word: int, size: int, q: int, v: int, q': int, v': int)
    requires word == size * q + v == size * q' + v' && 0 <= v < size && 0 <= v' < size
    ensures v == v'
  {
    assert size * (q - q') == v' - v;
    assert size * (q' - q) == v - v';
    if q > q' {
      AtLeastOnce(size, q - q');
    } else if q < q' {
      AtLeastOnce(size, q' - q);
    }
  }

  lemma {:induction false} AtLeastOnce(size: int, k: int)
    requires size > 0 && k > 0
    ensures size * k >= size
    decreases k
  {
    if k > 1 {
      AtLeastOnce(size, k - 1);
      assert size * k == size * (k - 1) + size;
    }
  }

  lemma NextMultiple(word: int, v: int, size: int)
    requires size > 0 && (word - v) % size == 0
    ensures (word - (v + size)) % size == 0
  {
    var q := (word - v) / size;
    assert word - (v + size) == size * (q - 1);
    SameRemainder(word - (v + size), size, q - 1, 0, (word - (v + size)) / size, (word - (v + size)) % size);
  }

  /** Two's complement gives back the number of the signed type. */
  lemma TwosComplement(word: nat, v: int, size: int)
    requires size > 0 && size % 2 == 0 && (word - v) % size == 0 && -size / 2 <= v < size / 2
    ensures SignedIn(word, size) == v
  {
    if v >= 0 {
      Remainder(word, v, size);
    } else {
      NextMultiple(word, v, size);
      Remainder(word, v + size, size);
    }
  }

  lemma TakesSigned(m: Mod, args: seq<Arg>, v: int)
    requires args != [] && SignedArg(m, args[0], v)
    ensures TakeSigned(m, args) == Taken(v, args[1..])
  {
    TwosComplement(if args[0].Word64? then args[0].wide else args[0].bits, v, Size(m));
  }

  lemma TakesUnsigned(m: Mod, args: seq<Arg>, v: int)
    requires args != [] && UnsignedArg(m, args[0], v)
    ensures TakeUnsigned(m, args) == Taken(v, args[1..])
  {
    Remainder(if args[0].Word64? then args[0].wide else args[0].bits, v, Size(m));
  }

  /** '%d' and '%i', with every modifier, flag, width and precision: the text is that of the
      number that the argument is in the signed type, in base ten; without quotes it reads
      back as this number and is the standard's text wherever a digit is due. */
  lemma SignedConversion(d: Directive, t: seq<char>, sep: seq<char>, args: seq<Arg>, v: int)
    requires Plain(d) && (d.conv.value == 'd' || d.conv.value == 'i')
    requires args != [] && SignedArg(d.mod, args[0], v) && v != -TWO_64 / 2
    ensures
      var text := IntText(v, 10, Width(d), Precision(d), d.flags, sep);
      && Render(Written(d, t), sep, args) == Prepend(text, Render(t, sep, args[1..]))
      && (!d.flags.quote ==> ReadInt(text, 10) == v)
      && (!d.flags.quote && !EmptyZero(v, 10, Precision(d), d.flags) ==>
            text == Standard.StandardInt(v, 10, Width(d), Precision(d), d.flags))
  {
    TakesSigned(d.mod, args, v);
    Converts(d, t, sep, args, IntText(v, 10, Width(d), Precision(d), d.flags, sep), args[1..]);
    if !d.flags.quote {
      IntReadsBack(v, 10, Width(d), Precision(d), d.flags, sep);
      StandardIff(v, 10, Width(d), Precision(d), d.flags, sep);
    }
  }

  function BaseOf(c: char): base {
    if c == 'o' then 8 else if c == 'u' then 10 else 16
  }

  /** '%u', '%o', '%x' and '%X': the same in the unsigned type, in base 10, 8 and 16, the
      last with capitals. */
  lemma UnsignedConversion(d: Directive, t: seq<char>, sep: seq<char>, args: seq<Arg>, v: int)
    requires Plain(d) && d.conv.value in "uoxX"
    requires args != [] && UnsignedArg(d.mod, args[0], v)
    ensures
      var b, flags := BaseOf(d.conv.value), d.flags.(unsign := true, up := d.conv.value == 'X');
      var text := IntText(v, b, Width(d), Precision(d), flags, sep);
      && Render(Written(d, t), sep, args) == Prepend(text, Render(t, sep, args[1..]))
      && (!d.flags.quote ==> ReadInt(text, b) == v)
      && (!d.flags.quote && !EmptyZero(v, b, Precision(d), flags) ==>
            text == Standard.StandardInt(v, b, Width(d), Precision(d), flags))
  {
    var b, flags := BaseOf(d.conv.value), d.flags.(unsign := true, up := d.conv.value == 'X');
    TakesUnsigned(d.mod, args, v);
    Converts(d, t, sep, args, IntText(v, b, Width(d), Precision(d), flags, sep), args[1..]);
    if !d.flags.quote {
      IntReadsBack(v, b, Width(d), Precision(d), flags, sep);
      StandardIff(v, b, Width(d), Precision(d), flags, sep);
    }
  }

  // ---------- floating values ----------

  predicate FloatLetter(c: char) {
    c == 'f' || c == 'F' || c == 'a' || c == 'A' || ExponentLetter(c) || GeneralLetter(c)
  }

  predicate ExponentLetter(c: char) {
    c == 'e' || c == 'E'
  }

  predicate GeneralLetter(c: char) {
    c == 'g' || c == 'G'
  }

  predicate Capital(c: char) {
    'A' <= c <= 'Z'
  }

  /** What the letter asks for: capitals, an exponent, or the shorter of the styles. */
  function FloatFlags(flags: Flags, c: char): Flags {
    flags.(up := Capital(c), typeE := ExponentLetter(c), typeG := GeneralLetter(c))
  }

  function FloatPrecision(p: int, c: char): int {
    if GeneralLetter(c) && p == 0 then 1 else p
  }

  /** '%f', '%e' and '%g' and their capitals ('a' is printed as 'f'): the text in their
      style, or an overflow; without quotes a finite value's text reads back as the value
      rounded at its last place if and only if it is not next to 10 to the 100. */
  lemma FloatConversion(d: Directive, t: seq<char>, sep: seq<char>, args: seq<Arg>, v: FVal)
    requires Plain(d) && FloatLetter(d.conv.value)
    requires args != [] && args[0] == if d.mod == LDoubleMod then LongDouble(v) else Double(v)
    ensures
      var flags, p := FloatFlags(d.flags, d.conv.value), FloatPrecision(Precision(d), d.conv.value);
      var text := FloatText(v, Width(d), p, flags, sep);
      && Render(Written(d, t), sep, args) ==
           (if text.None? then Overflowed([]) else Prepend(text.value, Render(t, sep, args[1..])))
      && (v.Fin? && text.Some? && !d.flags.quote ==>
            var a, parts := Magnitude(v.v), PartsOf(Magnitude(v.v), p, flags).value;
            ReadFloat(text.value) == Signed(v.v < 0.0, RoundedAt(a, Accuracy.PlaceOf(a, parts)))
            <==> !((ExponentLetter(d.conv.value) || GeneralLetter(d.conv.value))
                   && Accuracy.TooNear(a, Accuracy.WorkPrecision(p, flags))))
  {
    var flags, p := FloatFlags(d.flags, d.conv.value), FloatPrecision(Precision(d), d.conv.value);
    FloatRenders(d, t, sep, args, v, flags, p);
    var text := FloatText(v, Width(d), p, flags, sep);
    if v.Fin? && text.Some? && !d.flags.quote {
      Accuracy.FloatReadsBackIff(v.v, Width(d), p, flags, sep, PartsOf(Magnitude(v.v), p, flags).value);
    }
  }

  lemma FloatRenders(d: Directive, t: seq<char>, sep: seq<char>, args: seq<Arg>, v: FVal, flags: Flags, p: int)
    requires Plain(d) && FloatLetter(d.conv.value)
    requires args != [] && args[0] == if d.mod == LDoubleMod then LongDouble(v) else Double(v)
    requires flags == FloatFlags(d.flags, d.conv.value) && p == FloatPrecision(Precision(d), d.conv.value)
    ensures
      var text := FloatText(v, Width(d), p, flags, sep);
      Render(Written(d, t), sep, args) ==
        if text.None? then Overflowed([]) else Prepend(text.value, Render(t, sep, args[1..]))
  {
    Laws.RenderWritten(d, t, sep, args);
    Laws.AmountsShow(d, sep, args);
    FloatShown(d.conv.value, d.mod, d.flags, Width(d), Precision(d), sep, args, v, FloatText(v, Width(d), p, flags, sep));
  }

  lemma FloatShown(c: char, m: Mod, flags: Flags, width: int, precision: int, sep: seq<char>, args: seq<Arg>, v: FVal,
                   text: Option<seq<char>>)
    requires precision >= -1 && FloatLetter(c)
    requires args != [] && args[0] == if m == LDoubleMod then LongDouble(v) else Double(v)
    requires text == FloatText(v, width, FloatPrecision(precision, c), FloatFlags(flags, c), sep)
    ensures ShowConv(c, m, flags, width, precision, sep, args) ==
            if text.None? then TooLarge else Shows(text.value, args[1..])
  {
    assert TakeFloat(m, args) == Taken(v, args[1..]);
    var style := if ExponentLetter(c) then Scientific else if GeneralLetter(c) then General else Fixed;
    assert StyleFlags(flags, style, Capital(c)) == FloatFlags(flags, c);
    assert StylePrecision(precision, style) == FloatPrecision(precision, c);
    LetterShown(c, m, flags, width, precision, sep, args, style);
  }

  lemma LetterShown(c: char, m: Mod, flags: Flags, width: int, precision: int, sep: seq<char>, args: seq<Arg>,
                    style: Style)
    requires precision >= -1 && FloatLetter(c)
    requires style == if ExponentLetter(c) then Scientific else if GeneralLetter(c) then General else Fixed
    ensures ShowConv(c, m, flags, width, precision, sep, args)
            == ShowFloat(m, style, Capital(c), flags, width, precision, sep, args)
  {
    match c {
      case 'f' =>
      case 'F' =>
      case 'a' =>
      case 'A' =>
      case 'e' =>
      case 'E' =>
      case 'g' =>
      case 'G' =>
    }
  }

  // ---------- strings, characters, pointers ----------

  /** '%s': a first part of the string, as long as the precision allows, in its field;
      NULL is a word. */
  lemma StringConversion(d: Directive, t: seq<char>, sep: seq<char>, args: seq<Arg>) returns (shown: seq<char>)
    requires Plain(d) && d.conv.value == 's' && args != [] && args[0].Chars?
    ensures
      var full, p := if args[0].s.Some? then args[0].s.value else "(null)", Precision(d);
      shown <= full && |shown| == if p == -1 || |full| <= p then |full| else p
    ensures Render(Written(d, t), sep, args) ==
            Prepend(StandardField([], shown, Width(d), d.flags.minus, false), Render(t, sep, args[1..]))
  {
    shown := StrShown(args[0].s, Precision(d));
    PaddedIsField(shown, Width(d), d.flags.minus);
    Converts(d, t, sep, args, Padded(shown, Width(d), d.flags.minus), args[1..]);
  }

  lemma PaddedIsField(body: seq<char>, width: int, left: bool)
    ensures Padded(body, width, left) == StandardField([], body, width, left, false)
  {
    assert [] + body == body;
  }

  /** '%c': the argument as a byte, whatever the width. */
  lemma CharConversion(d: Directive, t: seq<char>, sep: seq<char>, args: seq<Arg>)
    requires Plain(d) && d.conv.value == 'c' && args != [] && args[0].Word32?
    ensures Render(Written(d, t), sep, args) ==
            Prepend([(args[0].bits % 0x100) as char], Render(t, sep, args[1..]))
  {
    Converts(d, t, sep, args, [(args[0].bits % 0x100) as char], args[1..]);
  }

  /** So '%c' fills its field, as paragraph 4 asks, if and only if the width is at most one. */
  lemma CharWidthIff(d: Directive, sep: seq<char>, args: seq<Arg>)
    requires Plain(d) && d.conv.value == 'c' && args != [] && args[0].Word32?
    ensures
      var r := Render(Written(d, []), sep, args);
      r.Text? && (|r.text| == Max(Width(d), 1) <==> Width(d) <= 1)
  {
    CharConversion(d, [], sep, args);
  }

  /** '%p': a word for NULL, and the address in base 16 with its prefix for the others. */
  lemma PointerConversion(d: Directive, t: seq<char>, sep: seq<char>, args: seq<Arg>)
    requires Plain(d) && d.conv.value == 'p' && args != [] && args[0].Pointer?
    ensures
      var addr, flags := args[0].addr, d.flags.(num := true, unsign := true);
      var text := if addr == 0 then StandardField([], "(nil)", Width(d), d.flags.minus, false)
                  else IntText(addr, 16, Width(d), Precision(d), flags, sep);
      && Render(Written(d, t), sep, args) == Prepend(text, Render(t, sep, args[1..]))
      && (addr != 0 && !d.flags.quote ==>
            ReadInt(text, 16) == addr && text == Standard.StandardInt(addr, 16, Width(d), Precision(d), flags))
  {
    var addr, flags := args[0].addr, d.flags.(num := true, unsign := true);
    PaddedIsField("(nil)", Width(d), d.flags.minus);
    Converts(d, t, sep, args,
             if addr == 0 then Padded("(nil)", Width(d), d.flags.minus)
             else IntText(addr, 16, Width(d), Precision(d), flags, sep), args[1..]);
    if addr != 0 && !d.flags.quote {
      IntReadsBack(addr, 16, Width(d), Precision(d), flags, sep);
      StandardIff(addr, 16, Width(d), Precision(d), flags, sep);
    }
  }

  /** '%%' prints itself, and a letter that is no conversion nothing; neither takes an argument. */
  lemma OtherConversion(d: Directive, t: seq<char>, sep: seq<char>, args: seq<Arg>)
    requires Plain(d) && d.conv.value !in "diuoxXaAeEfFgGcspn"
    ensures Render(Written(d, t), sep, args) ==
            Prepend(if d.conv.value == '%' then "%" else "", Render(t, sep, args))
  {
    Converts(d, t, sep, args, if d.conv.value == '%' then "%" else "", args);
  }

  // ---------- stars ----------

  lemma NumberIsAmount(n: nat)
    ensures
      var ds := DigitsOf(n, 10, false);
      && Decimals(ds) && Read(ds, 10) == n
      && (forall c :: c in ds ==> IsDigit(c)) && (n > 0 ==> ds[0] != '0')
  {
    var ds := DigitsOf(n, 10, false);
    ReadDigits(n, 10, false);
    FirstDigit(n, 10, false);
    forall c | c in ds
      ensures IsDigit(c)
    {
      var i :| 0 <= i < |ds| && ds[i] == c;
      assert 0 <= DigitVal(ds[i]) < 10;
    }
  }

  /** The directive with the number `n` for its width: a negative one is a '-' flag. */
  function WithWidth(d: Directive, n: int): Directive {
    d.(flags := if n < 0 then d.flags.(minus := true) else d.flags,
       width := if n == 0 then NoAmount else Amount(DigitsOf(Abs(n), 10, false), false))
  }

  /** A '*' for the width prints as the number in its argument would. */
  lemma StarWidth(d: Directive, t: seq<char>, sep: seq<char>, args: seq<Arg>, n: int)
    requires Laws.Canonical(d) && d.width == Amount([], true)
    requires args != [] && SignedArg(NoMod, args[0], n) && n != -TWO_32 / 2
    ensures Laws.Canonical(WithWidth(d, n))
    ensures Render(Written(d, t), sep, args) == Render(Written(WithWidth(d, n), t), sep, args[1..])
  {
    NumberIsAmount(Abs(n));
    StarField(d, args, n);
    SameField(d, WithWidth(d, n), sep, args, args[1..]);
    SameRender(d, WithWidth(d, n), t, sep, args, args[1..]);
  }

  lemma StarField(d: Directive, args: seq<Arg>, n: int)
    requires d.width == Amount([], true)
    requires args != [] && SignedArg(NoMod, args[0], n) && n != -TWO_32 / 2
    ensures FieldOf(d.flags, d.width, args) == FieldOf(WithWidth(d, n).flags, WithWidth(d, n).width, args[1..])
  {
    TwosComplement(args[0].bits, n, TWO_32);
    assert Read([], 10) == 0;
    assert Resolve(d.width, args) == Known(n, args[1..]);
    NumberIsAmount(Abs(n));
    assert Resolve(WithWidth(d, n).width, args[1..]) == Known(Abs(n), args[1..]);
  }

  lemma SameField(d: Directive, e: Directive, sep: seq<char>, args: seq<Arg>, more: seq<Arg>)
    requires d.mod == e.mod && d.conv == e.conv && d.precision == e.precision
    requires FieldOf(d.flags, d.width, args) == FieldOf(e.flags, e.width, more)
    ensures ShowDirective(d, sep, args) == ShowDirective(e, sep, more)
  {
  }

  /** The directive with the number `n` for its precision: a negative one is none. */
  function WithPrecision(d: Directive, n: int): Directive {
    d.(precision := if n < 0 then None else Some(Amount(DigitsOf(n, 10, false), false)))
  }

  /** A '*' for the precision prints as the number in its argument would. */
  lemma StarPrecision(d: Directive, t: seq<char>, sep: seq<char>, args: seq<Arg>, n: int)
    requires Laws.Canonical(d) && !d.width.star && d.precision == Some(Amount([], true))
    requires args != [] && SignedArg(NoMod, args[0], n)
    ensures Laws.Canonical(WithPrecision(d, n))
    ensures Render(Written(d, t), sep, args) == Render(Written(WithPrecision(d, n), t), sep, args[1..])
  {
    NumberIsAmount(if n < 0 then 0 else n);
    StarNumber(d, args, n);
    SamePrecision(d, WithPrecision(d, n), sep, args, args[1..]);
    SameRender(d, WithPrecision(d, n), t, sep, args, args[1..]);
  }

  lemma StarNumber(d: Directive, args: seq<Arg>, n: int)
    requires d.precision == Some(Amount([], true)) && args != [] && SignedArg(NoMod, args[0], n)
    ensures PrecisionOf(d.precision, args) == PrecisionOf(WithPrecision(d, n).precision, args[1..])
  {
    TwosComplement(args[0].bits, n, TWO_32);
    assert Read([], 10) == 0;
    assert Resolve(d.precision.value, args) == Known(n, args[1..]);
    NumberIsAmount(if n < 0 then 0 else n);
  }

  lemma SamePrecision(d: Directive, e: Directive, sep: seq<char>, args: seq<Arg>, more: seq<Arg>)
    requires Laws.Canonical(d) && !d.width.star && e == d.(precision := e.precision)
    requires PrecisionOf(d.precision, args) == PrecisionOf(e.precision, more)
    ensures ShowDirective(d, sep, args) == ShowDirective(e, sep, more)
  {
    Laws.DigitsAreDecimals(d.width.digits);
  }

  lemma SameRender(d: Directive, e: Directive, t: seq<char>, sep: seq<char>, args: seq<Arg>, more: seq<Arg>)
    requires Laws.Canonical(d) && Laws.Canonical(e) && ShowDirective(d, sep, args) == ShowDirective(e, sep, more)
    ensures Render(Written(d, t), sep, args) == Render(Written(e, t), sep, more)
  {
    Laws.RenderWritten(d, t, sep, args);
    Laws.RenderWritten(e, t, sep, more);
  }
}
