/** Format strings as structured directives, and the text they denote: what
    rpl_vsnprintf of lib/snprintf.c is to print, whatever the size of its buffer. */
module Directive {
  import opened Base
  import opened Sink
  import opened Digits
  import opened IntFormat
  import opened FloatFormat

  // ---------- the grammar ----------

  datatype Mod = NoMod | CharMod | ShortMod | LongMod | LDoubleMod | SizeMod | PtrdiffMod | IntmaxMod

  /** Digits, then possibly a '*', which takes precedence over them. */
  datatype Amount = Amount(digits: seq<char>, star: bool)

  const NoAmount := Amount([], false)

  /** A directive; one that the end of the format cuts off has no conversion. */
  datatype Directive = Directive(flags: Flags, width: Amount, precision: Option<Amount>, mod: Mod, conv: Option<char>)

  const Blank := Directive(NoFlags, NoAmount, None, NoMod, None)

  predicate IsDigit(c: char) {
    '0' <= c <= '9'
  }

  predicate IsFlag(c: char) {
    c == '-' || c == '+' || c == ' ' || c == '#' || c == '0' || c == '\''
  }

  function WithFlag(f: Flags, c: char): Flags {
    f.(minus := f.minus || c == '-', plus := f.plus || c == '+', space := f.space || c == ' ',
       num := f.num || c == '#', zero := f.zero || c == '0', quote := f.quote || c == '\'')
  }

  function MoreDigits(a: Amount, c: char): Amount {
    a.(digits := a.digits + [c])
  }

  datatype Parsed = Parsed(d: Directive, rest: seq<char>)

  /** Flags, a width, a precision behind a dot, a length modifier, a conversion. */
  function ParseFlags(s: seq<char>, d: Directive): Parsed {
    if s != [] && IsFlag(s[0]) then ParseFlags(s[1..], d.(flags := WithFlag(d.flags, s[0]))) else ParseWidth(s, d)
  }

  function ParseWidth(s: seq<char>, d: Directive): Parsed {
    if s != [] && IsDigit(s[0]) then ParseWidth(s[1..], d.(width := MoreDigits(d.width, s[0])))
    else if s != [] && s[0] == '*' then ParseDot(s[1..], d.(width := d.width.(star := true)))
    else ParseDot(s, d)
  }

  function ParseDot(s: seq<char>, d: Directive): Parsed {
    if s != [] && s[0] == '.' then ParsePrecision(s[1..], d, NoAmount) else ParseMod(s, d)
  }

  function ParsePrecision(s: seq<char>, d: Directive, p: Amount): Parsed {
    if s != [] && IsDigit(s[0]) then ParsePrecision(s[1..], d, MoreDigits(p, s[0]))
    else if s != [] && s[0] == '*' then ParseMod(s[1..], d.(precision := Some(p.(star := true))))
    else ParseMod(s, d.(precision := Some(p)))
  }

  /** The modifier that begins a string, and how many characters it takes. */
  function ModOf(s: seq<char>): (Mod, nat) {
    if s == [] then (NoMod, 0)
    else match s[0]
      case 'h' => if |s| > 1 && s[1] == 'h' then (CharMod, 2) else (ShortMod, 1)
      case 'l' => (LongMod, 1)
      case 'L' => (LDoubleMod, 1)
      case 'j' => (IntmaxMod, 1)
      case 't' => (PtrdiffMod, 1)
      case 'z' => (SizeMod, 1)
      case _ => (NoMod, 0)
  }

  function ParseMod(s: seq<char>, d: Directive): Parsed {
    var (m, n) := ModOf(s);
    ParseConv(s[n..], d.(mod := m))
  }

  function ParseConv(s: seq<char>, d: Directive): Parsed {
    if s == [] then Parsed(d, []) else Parsed(d.(conv := Some(s[0])), s[1..])
  }

  // ---------- arguments ----------

  const TWO_32 := 0x1_0000_0000
  const TWO_64 := 0x1_0000_0000_0000_0000

  type word32 = v: int | 0 <= v < TWO_32
  type word64 = v: int | 0 <= v < TWO_64

  /** What a variadic call passes: promoted words, floating values, pointers. */
  datatype Arg =
    | Word32(bits: word32)
    | Word64(wide: word64)
    | Double(v: FVal)
    | LongDouble(v: FVal)
    | Chars(s: Option<string>)
    | Pointer(addr: word64)

  /** The low bits of a word as a two's complement number. */
  function SignedIn(bits: nat, size: nat): int
    requires size > 0
  {
    var low := bits % size;
    if 2 * low >= size then low - size else low
  }

  datatype Taken<+T> = Taken(value: T, args: seq<Arg>) | Wrong

  function TakeWord32(args: seq<Arg>): Taken<word32> {
    if args != [] && args[0].Word32? then Taken(args[0].bits, args[1..]) else Wrong
  }

  function TakeWord64(args: seq<Arg>): Taken<word64> {
    if args != [] && args[0].Word64? then Taken(args[0].wide, args[1..]) else Wrong
  }

  predicate IsWide(m: Mod) {
    m == LongMod || m == SizeMod || m == IntmaxMod || m == PtrdiffMod
  }

  function TakeSigned(m: Mod, args: seq<Arg>): Taken<int> {
    if IsWide(m) then
      match TakeWord64(args) case Wrong => Wrong case Taken(w, more) => Taken(SignedIn(w, TWO_64), more)
    else
      var size := if m == CharMod then 0x100 else if m == ShortMod then 0x1_0000 else TWO_32;
      match TakeWord32(args) case Wrong => Wrong case Taken(w, more) => Taken(SignedIn(w, size), more)
  }

  function TakeUnsigned(m: Mod, args: seq<Arg>): Taken<nat> {
    if IsWide(m) then
      match TakeWord64(args) case Wrong => Wrong case Taken(w, more) => Taken(w, more)
    else
      var size := if m == CharMod then 0x100 else if m == ShortMod then 0x1_0000 else TWO_32;
      match TakeWord32(args) case Wrong => Wrong case Taken(w, more) => Taken(w % size, more)
  }

  function TakeFloat(m: Mod, args: seq<Arg>): Taken<FVal> {
    if args == [] then Wrong
    else if m == LDoubleMod then (if args[0].LongDouble? then Taken(args[0].v, args[1..]) else Wrong)
    else (if args[0].Double? then Taken(args[0].v, args[1..]) else Wrong)
  }

  // ---------- one directive ----------

  /** What a directive does: it shows a text and leaves some arguments, it is too
      large for an int, or C gives it no meaning. */
  datatype Effect = Shows(text: seq<char>, args: seq<Arg>) | TooLarge | NoMeaning

  /** A width or precision: a decimal number, or an int argument. */
  datatype Resolved = Known(n: int, args: seq<Arg>) | Exceeds | Unknown

  /** A decimal number counts if and only if it is no more than INT_MAX. */
  function Resolve(a: Amount, args: seq<Arg>): (r: Resolved)
    ensures r.Known? ==> -INT_MAX - 1 <= r.n <= INT_MAX
  {
    if !Decimals(a.digits) then Unknown
    else if Read(a.digits, 10) > INT_MAX then Exceeds
    else if !a.star then Known(Read(a.digits, 10), args)
    else match TakeWord32(args) case Wrong => Unknown case Taken(w, more) => Known(SignedIn(w, TWO_32), more)
  }

  /** A negative width is a '-' flag and a width; the most negative one has no counterpart. */
  datatype Field = Field(flags: Flags, width: int, args: seq<Arg>) | FieldExceeds | FieldUnknown

  function FieldOf(flags: Flags, width: Amount, args: seq<Arg>): Field {
    match Resolve(width, args)
    case Exceeds => FieldExceeds
    case Unknown => FieldUnknown
    case Known(n, more) =>
      if n == -INT_MAX - 1 then FieldUnknown
      else if n < 0 then Field(flags.(minus := true), -n, more)
      else Field(flags, n, more)
  }

  /** No precision, or a negative one, is -1. */
  function PrecisionOf(p: Option<Amount>, args: seq<Arg>): (r: Resolved)
    ensures r.Known? ==> r.n >= -1
  {
    if p.None? then Known(-1, args)
    else match Resolve(p.value, args)
      case Exceeds => Exceeds
      case Unknown => Unknown
      case Known(n, more) => Known(Max(n, -1), more)
  }

  function ShowSigned(m: Mod, flags: Flags, width: int, precision: int, sep: seq<char>, args: seq<Arg>): Effect {
    match TakeSigned(m, args)
    case Wrong => NoMeaning
    case Taken(v, more) =>
      if v == -TWO_64 / 2 then NoMeaning else Shows(IntText(v, 10, width, precision, flags, sep), more)
  }

  function ShowUnsigned(m: Mod, b: base, flags: Flags, width: int, precision: int, sep: seq<char>, args: seq<Arg>): Effect {
    match TakeUnsigned(m, args)
    case Wrong => NoMeaning
    case Taken(v, more) => Shows(IntText(v, b, width, precision, flags.(unsign := true), sep), more)
  }

  datatype Style = Fixed | Scientific | General

  function StyleFlags(flags: Flags, style: Style, up: bool): Flags {
    flags.(up := up, typeE := style == Scientific, typeG := style == General)
  }

  /** '%g' with precision zero means one. */
  function StylePrecision(precision: int, style: Style): int {
    if style == General && precision == 0 then 1 else precision
  }

  function ShowFloat(m: Mod, style: Style, up: bool, flags: Flags, width: int, precision: int, sep: seq<char>,
                     args: seq<Arg>): Effect
    requires precision >= -1
  {
    match TakeFloat(m, args)
    case Wrong => NoMeaning
    case Taken(v, more) =>
      var text := FloatText(v, width, StylePrecision(precision, style), StyleFlags(flags, style, up), sep);
      if text.None? then TooLarge else Shows(text.value, more)
  }

  function ShowPointer(flags: Flags, width: int, precision: int, sep: seq<char>, args: seq<Arg>): Effect {
    if args == [] || !args[0].Pointer? then NoMeaning
    else if args[0].addr == 0 then Shows(Padded("(nil)", width, flags.minus), args[1..])
    else Shows(IntText(args[0].addr, 16, width, precision, flags.(num := true, unsign := true), sep), args[1..])
  }

  /** A conversion of the next argument. '%n' is not modelled. */
  function ShowConv(c: char, m: Mod, flags: Flags, width: int, precision: int, sep: seq<char>, args: seq<Arg>): Effect
    requires precision >= -1
  {
    match c
    case 'd' => ShowSigned(m, flags, width, precision, sep, args)
    case 'i' => ShowSigned(m, flags, width, precision, sep, args)
    case 'X' => ShowUnsigned(m, 16, flags.(up := true), width, precision, sep, args)
    case 'x' => ShowUnsigned(m, 16, flags, width, precision, sep, args)
    case 'o' => ShowUnsigned(m, 8, flags, width, precision, sep, args)
    case 'u' => ShowUnsigned(m, 10, flags, width, precision, sep, args)
    case 'A' => ShowFloat(m, Fixed, true, flags, width, precision, sep, args)
    case 'F' => ShowFloat(m, Fixed, true, flags, width, precision, sep, args)
    case 'a' => ShowFloat(m, Fixed, false, flags, width, precision, sep, args)
    case 'f' => ShowFloat(m, Fixed, false, flags, width, precision, sep, args)
    case 'E' => ShowFloat(m, Scientific, true, flags, width, precision, sep, args)
    case 'e' => ShowFloat(m, Scientific, false, flags, width, precision, sep, args)
    case 'G' => ShowFloat(m, General, true, flags, width, precision, sep, args)
    case 'g' => ShowFloat(m, General, false, flags, width, precision, sep, args)
    case 'c' => (match TakeWord32(args) case Wrong => NoMeaning case Taken(w, more) => Shows([(w % 0x100) as char], more))
    case 's' => if args == [] || !args[0].Chars? then NoMeaning
                else Shows(Padded(StrShown(args[0].s, precision), width, flags.minus), args[1..])
    case 'p' => ShowPointer(flags, width, precision, sep, args)
    case 'n' => NoMeaning
    case '%' => Shows("%", args)
    case _ => Shows("", args)
  }

  /** Width, precision, conversion, in this order. */
  function ShowDirective(d: Directive, sep: seq<char>, args: seq<Arg>): Effect {
    match FieldOf(d.flags, d.width, args)
    case FieldExceeds => TooLarge
    case FieldUnknown => NoMeaning
    case Field(flags, width, more) =>
      match PrecisionOf(d.precision, more)
      case Exceeds => TooLarge
      case Unknown => NoMeaning
      case Known(precision, last) =>
        if d.conv.None? then Shows("", last)
        else ShowConv(d.conv.value, d.mod, flags, width, precision, sep, last)
  }

  // ---------- whole formats ----------

  /** The text of a format and the arguments it leaves; or the text before a
      directive that is too large; or no meaning. */
  datatype Result = Text(text: seq<char>, args: seq<Arg>) | Overflowed(text: seq<char>) | Undefined

  function Prepend(t: seq<char>, r: Result): Result {
    match r
    case Text(s, args) => Text(t + s, args)
    case Overflowed(s) => Overflowed(t + s)
    case Undefined => Undefined
  }

  lemma ParseShrinks(s: seq<char>, d: Directive)
    ensures |ParseFlags(s, d).rest| <= |s| && |ParseWidth(s, d).rest| <= |s| && |ParseDot(s, d).rest| <= |s|
    decreases |s|
  {
    if s != [] {
      ParseShrinks(s[1..], d.(flags := WithFlag(d.flags, s[0])));
      ParseShrinks(s[1..], d.(width := MoreDigits(d.width, s[0])));
      ParseShrinks(s[1..], d.(width := d.width.(star := true)));
      PrecisionShrinks(s[1..], d, NoAmount);
    }
  }

  lemma PrecisionShrinks(s: seq<char>, d: Directive, p: Amount)
    ensures |ParsePrecision(s, d, p).rest| <= |s|
    decreases |s|
  {
    if s != [] {
      PrecisionShrinks(s[1..], d, MoreDigits(p, s[0]));
    }
  }

  /** What a format prints, with no limit on the output. */
  function Render(s: seq<char>, sep: seq<char>, args: seq<Arg>): Result
    decreases |s|, 0
  {
    if s == [] then Text([], args)
    else if s[0] != '%' then Prepend([s[0]], Render(s[1..], sep, args))
    else
      ParseShrinks(s[1..], Blank);
      Finish(ParseFlags(s[1..], Blank), sep, args)
  }

  /** A directive that has been read, then the rest of the format. */
  function Finish(p: Parsed, sep: seq<char>, args: seq<Arg>): Result
    decreases |p.rest|, 2
  {
    After(ShowDirective(p.d, sep, args), p.rest, sep)
  }

  function After(e: Effect, rest: seq<char>, sep: seq<char>): Result
    decreases |rest|, 1
  {
    match e
    case TooLarge => Overflowed([])
    case NoMeaning => Undefined
    case Shows(t, more) => Prepend(t, Render(rest, sep, more))
  }
}
