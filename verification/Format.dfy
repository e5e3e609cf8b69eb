/** rpl_vsnprintf of lib/snprintf.c: the seven-state machine over the format. */
module Format {
  import opened Base
  import opened Sink
  import opened Digits
  import opened IntFormat
  import opened FloatFormat
  import opened Directive

  datatype State = InDefault | InFlags | InWidth | InDot | InPrecision | InMod | InConv

  function Rank(s: State): nat {
    match s
    case InDefault => 0
    case InFlags => 1
    case InWidth => 2
    case InDot => 3
    case InPrecision => 4
    case InMod => 5
    case InConv => 6
  }

  /** The variables the machine works with. */
  datatype Regs = Regs(state: State, flags: Flags, width: int, precision: int, mod: Mod, base: int, args: seq<Arg>)

  /** What has been read of the current directive, and the arguments before it. */
  datatype Seen = Seen(d: Directive, p: Amount, before: seq<Arg>)

  /** None of the flags that conversions set. */
  predicate Plain(f: Flags) {
    !f.up && !f.unsign && !f.typeG && !f.typeE
  }

  /** A NUL-terminated string and where it ends. */
  predicate EndsAt(format: seq<char>, end: nat) {
    end < |format| && format[end] == '\0' && '\0' !in format[..end]
  }

  ghost predicate FieldKnown(r: Regs, g: Seen, more: seq<Arg>) {
    FieldOf(g.d.flags, g.d.width, g.before) == Field(r.flags, r.width, more) && Plain(g.d.flags)
  }

  ghost predicate PrecisionKnown(r: Regs, g: Seen) {
    match FieldOf(g.d.flags, g.d.width, g.before)
    case Field(flags, width, more) =>
      r.flags == flags && r.width == width && Plain(flags) && PrecisionOf(g.d.precision, more) == Known(r.precision, r.args)
    case _ => false
  }

  /** The variables hold what has been read; between directives, nothing. */
  ghost predicate Agrees(r: Regs, g: Seen) {
    && (!r.state.InPrecision? && !r.state.InMod? && !r.state.InConv? ==> r.precision == -1)
    && (!r.state.InConv? ==> r.mod == NoMod)
    && r.base == 0
    && match r.state
       case InDefault => r.flags == NoFlags && r.width == 0
       case InFlags => g.d == Blank.(flags := r.flags) && Plain(r.flags) && r.width == 0 && r.args == g.before
       case InWidth =>
         && g.d == Blank.(flags := r.flags, width := Amount(g.d.width.digits, false)) && Plain(r.flags)
         && Decimals(g.d.width.digits) && r.width == Read(g.d.width.digits, 10) <= INT_MAX && r.args == g.before
       case InDot => g.d == Blank.(flags := g.d.flags, width := g.d.width) && FieldKnown(r, g, r.args)
       case InPrecision =>
         && g.d == Blank.(flags := g.d.flags, width := g.d.width) && FieldKnown(r, g, r.args)
         && !g.p.star && Decimals(g.p.digits) && Read(g.p.digits, 10) <= INT_MAX
         && (r.precision == Read(g.p.digits, 10) || (r.precision == -1 && g.p.digits == []))
       case InMod => g.d.mod == NoMod && g.d.conv.None? && PrecisionKnown(r, g)
       case InConv => g.d.mod == r.mod && g.d.conv.None? && PrecisionKnown(r, g)
  }

  /** What is still to be printed. */
  ghost function Ahead(r: Regs, g: Seen, s: seq<char>, sep: seq<char>): Result {
    match r.state
    case InDefault => Render(s, sep, r.args)
    case InFlags => Finish(ParseFlags(s, g.d), sep, g.before)
    case InWidth => Finish(ParseWidth(s, g.d), sep, g.before)
    case InDot => Finish(ParseDot(s, g.d), sep, g.before)
    case InPrecision => Finish(ParsePrecision(s, g.d, g.p), sep, g.before)
    case InMod => Finish(ParseMod(s, g.d), sep, g.before)
    case InConv => Finish(ParseConv(s, g.d), sep, g.before)
  }

  /** A step leaves what is ahead as it was, and moves on in the format or in the state. */
  ghost predicate Moves(format: seq<char>, end: nat, sep: seq<char>, pos: nat, r: Regs, g: Seen, pos': nat, r': Regs, g': Seen) {
    && EndsAt(format, end) && pos < end && pos <= pos' <= end
    && (pos' == pos ==> Rank(r'.state) > Rank(r.state))
    && Agrees(r', g') && Ahead(r', g', format[pos'..end], sep) == Ahead(r, g, format[pos..end], sep)
  }

  /** The switch over the flag characters. */
  method SetFlag(flags: Flags, ch: char) returns (known: bool, flags': Flags)
    ensures known == IsFlag(ch) && flags' == WithFlag(flags, ch) && (Plain(flags) ==> Plain(flags'))
  {
    known, flags' := true, flags;
    match ch {
      case '-' => flags' := flags.(minus := true);
      case '+' => flags' := flags.(plus := true);
      case ' ' => flags' := flags.(space := true);
      case '#' => flags' := flags.(num := true);
      case '0' => flags' := flags.(zero := true);
      case '\'' => flags' := flags.(quote := true);
      case _ => known := false;
    }
  }

  method StepFlags(format: seq<char>, ghost end: nat, ghost sep: seq<char>, pos: nat, r: Regs, ghost g: Seen)
    returns (pos': nat, r': Regs, ghost g': Seen)
    requires EndsAt(format, end) && pos < end && r.state == InFlags && Agrees(r, g)
    ensures Moves(format, end, sep, pos, r, g, pos', r', g')
  {
    var ch := format[pos];
    ghost var s := format[pos..end];
    assert s[0] == ch && s[1..] == format[pos + 1..end];
    pos', r', g' := pos, r, g;
    var known, flags := SetFlag(r.flags, ch);
    if known {
      r' := r.(flags := flags);
      pos' := pos + 1;
      g' := g.(d := g.d.(flags := flags));
    } else {
      r' := r.(state := InWidth);
      assert Read([], 10) == 0;
    }
  }

  // ---------- the width ----------

  lemma DotKeeps(s: seq<char>, d: Directive)
    ensures ParseDot(s, d).d.flags == d.flags && ParseDot(s, d).d.width == d.width
  {
    if s != [] {
      PrecisionKeeps(s[1..], d, NoAmount);
    }
  }

  lemma {:induction false} PrecisionKeeps(s: seq<char>, d: Directive, p: Amount)
    ensures
      var q := ParsePrecision(s, d, p).d;
      q.flags == d.flags && q.width == d.width && q.precision.Some?
    decreases |s|
  {
    if s != [] && IsDigit(s[0]) {
      PrecisionKeeps(s[1..], d, MoreDigits(p, s[0]));
    }
  }

  predicate TooMany(digits: seq<char>) {
    Decimals(digits) && Read(digits, 10) > INT_MAX
  }

  lemma OneMore(digits: seq<char>, c: char)
    requires Decimals(digits) && IsDigit(c)
    ensures Decimals(digits + [c]) && Read(digits + [c], 10) == 10 * Read(digits, 10) + (c as int - '0' as int)
  {
    ReadSnoc(digits, c, 10);
  }

  /** Once a width is too large, no further digit makes it smaller. */
  lemma {:induction false} WidthStaysTooMany(s: seq<char>, d: Directive)
    requires TooMany(d.width.digits)
    ensures TooMany(ParseWidth(s, d).d.width.digits)
    decreases |s|
  {
    if s != [] && IsDigit(s[0]) {
      OneMore(d.width.digits, s[0]);
      WidthStaysTooMany(s[1..], d.(width := MoreDigits(d.width, s[0])));
    } else if s != [] && s[0] == '*' {
      DotKeeps(s[1..], d.(width := d.width.(star := true)));
    } else {
      DotKeeps(s, d);
    }
  }

  lemma WideOverflows(p: Parsed, sep: seq<char>, args: seq<Arg>)
    requires TooMany(p.d.width.digits)
    ensures Finish(p, sep, args) == Overflowed([])
  {
  }

  lemma UnknownIsUndefined(p: Parsed, sep: seq<char>, args: seq<Arg>)
    requires FieldOf(p.d.flags, p.d.width, args) == FieldUnknown
    ensures Finish(p, sep, args) == Undefined
  {
  }

  /** One more digit, unless the number would exceed INT_MAX. */
  method AddDigit(value: int, ch: char) returns (overflow: bool, value': int)
    requires IsDigit(ch) && 0 <= value <= INT_MAX
    ensures overflow <==> 10 * value + (ch as int - '0' as int) > INT_MAX
    ensures value' == if overflow then value else 10 * value + (ch as int - '0' as int)
  {
    var digit := ch as int - '0' as int;
    overflow, value' := value > (INT_MAX - digit) / 10, value;
    if !overflow {
      value' := 10 * value + digit;
    }
  }

  /** A digit of the width: it counts if and only if the number stays within INT_MAX. */
  method WidthDigit(format: seq<char>, ghost end: nat, ghost sep: seq<char>, pos: nat, r: Regs, ghost g: Seen)
    returns (overflow: bool, r': Regs, ghost g': Seen)
    requires EndsAt(format, end) && pos < end && r.state == InWidth && Agrees(r, g) && IsDigit(format[pos])
    ensures overflow ==> Ahead(r, g, format[pos..end], sep) == Overflowed([])
    ensures !overflow ==> Moves(format, end, sep, pos, r, g, pos + 1, r', g')
  {
    var ch := format[pos];
    ghost var s := format[pos..end];
    assert s[0] == ch && s[1..] == format[pos + 1..end];
    r', overflow := r, false;
    g' := g.(d := g.d.(width := MoreDigits(g.d.width, ch)));
    OneMore(g.d.width.digits, ch);
    var width;
    overflow, width := AddDigit(r.width, ch);
    if overflow {
      WidthStaysTooMany(s[1..], g'.d);
      WideOverflows(ParseWidth(s, g.d), sep, g.before);
      return;
    }
    r' := r.(width := width);
  }

  /** A '*': the next argument is the width. */
  method WidthStar(format: seq<char>, ghost end: nat, ghost sep: seq<char>, pos: nat, r: Regs, ghost g: Seen)
    returns (r': Regs, ghost g': Seen)
    requires EndsAt(format, end) && pos < end && r.state == InWidth && Agrees(r, g) && format[pos] == '*'
    requires Ahead(r, g, format[pos..end], sep) != Undefined
    ensures Moves(format, end, sep, pos, r, g, pos + 1, r', g')
  {
    ghost var s := format[pos..end];
    assert s[0] == '*' && s[1..] == format[pos + 1..end];
    g' := g.(d := g.d.(width := g.d.width.(star := true)));
    DotKeeps(s[1..], g'.d);
    if FieldOf(g'.d.flags, g'.d.width, g.before) == FieldUnknown {
      UnknownIsUndefined(ParseDot(s[1..], g'.d), sep, g.before);
    }
    var width := SignedIn(r.args[0].bits, TWO_32);
    var flags := r.flags;
    if width < 0 {
      flags, width := flags.(minus := true), -width;
    }
    r' := r.(width := width, flags := flags, args := r.args[1..], state := InDot);
  }

  method StepWidth(format: seq<char>, ghost end: nat, ghost sep: seq<char>, pos: nat, r: Regs, ghost g: Seen)
    returns (overflow: bool, pos': nat, r': Regs, ghost g': Seen)
    requires EndsAt(format, end) && pos < end && r.state == InWidth && Agrees(r, g)
    requires Ahead(r, g, format[pos..end], sep) != Undefined
    ensures overflow ==> Ahead(r, g, format[pos..end], sep) == Overflowed([])
    ensures !overflow ==> Moves(format, end, sep, pos, r, g, pos', r', g')
  {
    overflow, pos', r', g' := false, pos, r, g;
    if IsDigit(format[pos]) {
      overflow, r', g' := WidthDigit(format, end, sep, pos, r, g);
      pos' := pos + 1;
    } else if format[pos] == '*' {
      r', g' := WidthStar(format, end, sep, pos, r, g);
      pos' := pos + 1;
    } else {
      r' := r.(state := InDot);
      assert format[pos..end][0] == format[pos];
    }
  }

  method StepDot(format: seq<char>, ghost end: nat, ghost sep: seq<char>, pos: nat, r: Regs, ghost g: Seen)
    returns (pos': nat, r': Regs, ghost g': Seen)
    requires EndsAt(format, end) && pos < end && r.state == InDot && Agrees(r, g)
    ensures Moves(format, end, sep, pos, r, g, pos', r', g')
  {
    var ch := format[pos];
    ghost var s := format[pos..end];
    assert s[0] == ch && s[1..] == format[pos + 1..end];
    pos', r', g' := pos, r, g;
    if ch == '.' {
      r' := r.(state := InPrecision);
      pos' := pos + 1;
      g' := g.(p := NoAmount);
      assert Read([], 10) == 0;
    } else {
      r' := r.(state := InMod);
    }
  }

  // ---------- the precision ----------

  lemma ModKeeps(s: seq<char>, d: Directive)
    ensures
      var q := ParseMod(s, d).d;
      q.flags == d.flags && q.width == d.width && q.precision == d.precision
  {
  }

  lemma {:induction false} PrecisionStaysTooMany(s: seq<char>, d: Directive, p: Amount)
    requires TooMany(p.digits)
    ensures
      var q := ParsePrecision(s, d, p).d;
      q.flags == d.flags && q.width == d.width && q.precision.Some? && TooMany(q.precision.value.digits)
    decreases |s|
  {
    if s != [] && IsDigit(s[0]) {
      OneMore(p.digits, s[0]);
      PrecisionStaysTooMany(s[1..], d, MoreDigits(p, s[0]));
    }
  }

  lemma PreciseOverflows(p: Parsed, sep: seq<char>, args: seq<Arg>)
    requires FieldOf(p.d.flags, p.d.width, args).Field?
    requires p.d.precision.Some? && TooMany(p.d.precision.value.digits)
    ensures Finish(p, sep, args) == Overflowed([])
  {
  }

  lemma UnknownPrecision(p: Parsed, sep: seq<char>, args: seq<Arg>)
    requires FieldOf(p.d.flags, p.d.width, args).Field?
    requires PrecisionOf(p.d.precision, FieldOf(p.d.flags, p.d.width, args).args) == Unknown
    ensures Finish(p, sep, args) == Undefined
  {
  }

  method PrecisionDigit(format: seq<char>, ghost end: nat, ghost sep: seq<char>, pos: nat, r: Regs, ghost g: Seen)
    returns (overflow: bool, r': Regs, ghost g': Seen)
    requires EndsAt(format, end) && pos < end && r.state == InPrecision && Agrees(r, g) && IsDigit(format[pos])
    requires r.precision == Read(g.p.digits, 10)
    ensures overflow ==> Ahead(r, g, format[pos..end], sep) == Overflowed([])
    ensures !overflow ==> Moves(format, end, sep, pos, r, g, pos + 1, r', g')
  {
    var ch := format[pos];
    ghost var s := format[pos..end];
    assert s[0] == ch && s[1..] == format[pos + 1..end];
    r', overflow := r, false;
    g' := g.(p := MoreDigits(g.p, ch));
    OneMore(g.p.digits, ch);
    var precision;
    overflow, precision := AddDigit(r.precision, ch);
    if overflow {
      PrecisionStaysTooMany(s[1..], g.d, g'.p);
      PreciseOverflows(ParsePrecision(s, g.d, g.p), sep, g.before);
      return;
    }
    r' := r.(precision := precision);
  }

  method PrecisionStar(format: seq<char>, ghost end: nat, ghost sep: seq<char>, pos: nat, r: Regs, ghost g: Seen)
    returns (r': Regs, ghost g': Seen)
    requires EndsAt(format, end) && pos < end && r.state == InPrecision && Agrees(r, g) && format[pos] == '*'
    requires Ahead(r, g, format[pos..end], sep) != Undefined
    ensures Moves(format, end, sep, pos, r, g, pos + 1, r', g')
  {
    ghost var s := format[pos..end];
    assert s[0] == '*' && s[1..] == format[pos + 1..end];
    g' := g.(d := g.d.(precision := Some(g.p.(star := true))));
    ModKeeps(s[1..], g'.d);
    if PrecisionOf(g'.d.precision, r.args) == Unknown {
      UnknownPrecision(ParseMod(s[1..], g'.d), sep, g.before);
    }
    var precision := SignedIn(r.args[0].bits, TWO_32);
    if precision < 0 {
      precision := -1;
    }
    r' := r.(precision := precision, args := r.args[1..], state := InMod);
  }

  method StepPrecision(format: seq<char>, ghost end: nat, ghost sep: seq<char>, pos: nat, r: Regs, ghost g: Seen)
    returns (overflow: bool, pos': nat, r': Regs, ghost g': Seen)
    requires EndsAt(format, end) && pos < end && r.state == InPrecision && Agrees(r, g)
    requires Ahead(r, g, format[pos..end], sep) != Undefined
    ensures overflow ==> Ahead(r, g, format[pos..end], sep) == Overflowed([])
    ensures !overflow ==> Moves(format, end, sep, pos, r, g, pos', r', g')
  {
    var q := PrecisionStarted(format, end, sep, pos, r, g);
    overflow, pos', r', g' := PrecisionChar(format, end, sep, pos, q, g);
  }

  /** The first time round, the precision becomes zero. */
  method PrecisionStarted(format: seq<char>, ghost end: nat, ghost sep: seq<char>, pos: nat, r: Regs, ghost g: Seen)
    returns (q: Regs)
    requires EndsAt(format, end) && pos < end && r.state == InPrecision && Agrees(r, g)
    ensures q.state == InPrecision && Agrees(q, g) && q.precision == Read(g.p.digits, 10)
    ensures Ahead(q, g, format[pos..end], sep) == Ahead(r, g, format[pos..end], sep)
  {
    q := if r.precision == -1 then r.(precision := 0) else r;
    assert Read([], 10) == 0;
  }

  method PrecisionChar(format: seq<char>, ghost end: nat, ghost sep: seq<char>, pos: nat, q: Regs, ghost g: Seen)
    returns (overflow: bool, pos': nat, r': Regs, ghost g': Seen)
    requires EndsAt(format, end) && pos < end && q.state == InPrecision && Agrees(q, g)
    requires q.precision == Read(g.p.digits, 10)
    requires Ahead(q, g, format[pos..end], sep) != Undefined
    ensures overflow ==> Ahead(q, g, format[pos..end], sep) == Overflowed([])
    ensures !overflow ==> Moves(format, end, sep, pos, q, g, pos', r', g')
  {
    overflow, pos', r', g' := false, pos, q, g;
    if IsDigit(format[pos]) {
      overflow, r', g' := PrecisionDigit(format, end, sep, pos, q, g);
      pos' := pos + 1;
    } else if format[pos] == '*' {
      r', g' := PrecisionStar(format, end, sep, pos, q, g);
      pos' := pos + 1;
    } else {
      r', g' := PrecisionEnds(format, end, sep, pos, q, g);
    }
  }

  method PrecisionEnds(format: seq<char>, ghost end: nat, ghost sep: seq<char>, pos: nat, q: Regs, ghost g: Seen)
    returns (r': Regs, ghost g': Seen)
    requires EndsAt(format, end) && pos < end && q.state == InPrecision && Agrees(q, g)
    requires q.precision == Read(g.p.digits, 10) && !IsDigit(format[pos]) && format[pos] != '*'
    ensures Moves(format, end, sep, pos, q, g, pos, r', g')
  {
    r' := q.(state := InMod);
    g' := g.(d := g.d.(precision := Some(g.p)));
    assert format[pos..end][0] == format[pos];
  }

  method StepMod(format: seq<char>, ghost end: nat, ghost sep: seq<char>, pos: nat, r: Regs, ghost g: Seen)
    returns (pos': nat, r': Regs, ghost g': Seen)
    requires EndsAt(format, end) && pos < end && r.state == InMod && Agrees(r, g)
    ensures Moves(format, end, sep, pos, r, g, pos', r', g')
  {
    var ch := format[pos];
    ghost var s := format[pos..end];
    assert s[0] == ch;
    assert pos + 1 < end ==> s[1] == format[pos + 1];
    var mod := NoMod;
    pos' := pos;
    match ch {
      case 'h' =>
        pos' := pos + 1;
        if format[pos'] == 'h' {
          pos', mod := pos' + 1, CharMod;
        } else {
          mod := ShortMod;
        }
      case 'l' => pos', mod := pos + 1, LongMod;
      case 'L' => pos', mod := pos + 1, LDoubleMod;
      case 'j' => pos', mod := pos + 1, IntmaxMod;
      case 't' => pos', mod := pos + 1, PtrdiffMod;
      case 'z' => pos', mod := pos + 1, SizeMod;
      case _ =>
    }
    assert ModOf(s) == (mod, pos' - pos);
    assert s[pos' - pos..] == format[pos'..end];
    r' := r.(mod := mod, state := InConv);
    g' := g.(d := g.d.(mod := mod));
  }

  // ---------- conversions ----------

  /** What a conversion leaves: the text shown and the arguments left, or overflow and no text. */
  ghost predicate Did(e: Effect, before: seq<char>, after: seq<char>, overflow: bool, args: seq<Arg>) {
    match e
    case Shows(t, more) => !overflow && after == before + t && args == more
    case TooLarge => overflow && after == before
    case NoMeaning => false
  }

  /** The next argument, read in the type that the modifier names. */
  method SignedArg(mod: Mod, args: seq<Arg>) returns (value: int, more: seq<Arg>)
    requires TakeSigned(mod, args) != Wrong
    ensures TakeSigned(mod, args) == Taken(value, more)
  {
    match mod {
      case CharMod => value := SignedIn(args[0].bits, 0x100);
      case ShortMod => value := SignedIn(args[0].bits, 0x1_0000);
      case LongMod => value := SignedIn(args[0].wide, TWO_64);
      case SizeMod => value := SignedIn(args[0].wide, TWO_64);
      case IntmaxMod => value := SignedIn(args[0].wide, TWO_64);
      case PtrdiffMod => value := SignedIn(args[0].wide, TWO_64);
      case _ => value := SignedIn(args[0].bits, TWO_32);
    }
    more := args[1..];
  }

  method ConvSigned(out: Out, r: Regs, sep: seq<char>) returns (args: seq<Arg>)
    requires out.Valid() && ShowSigned(r.mod, r.flags, r.width, r.precision, sep, r.args) != NoMeaning
    modifies out, out.str
    ensures out.Valid()
    ensures Did(ShowSigned(r.mod, r.flags, r.width, r.precision, sep, r.args), old(out.text), out.text, false, args)
  {
    var value;
    value, args := SignedArg(r.mod, r.args);
    FmtInt(out, value, 10, r.width, r.precision, r.flags, sep);
  }

  /** 'X', 'x', 'o' and 'u' fall through one another; the base must be zero before. */
  method BaseOf(ch: char, before: int) returns (b: base)
    requires before == 0 && ch in "Xxou"
    ensures b == if ch == 'o' then 8 else if ch == 'u' then 10 else 16
  {
    var found := before;
    if ch == 'X' || ch == 'x' {
      found := 16;
    }
    if ch != 'u' && found == 0 {
      found := 8;
    }
    if found == 0 {
      found := 10;
    }
    b := found;
  }

  method UnsignedArg(mod: Mod, args: seq<Arg>) returns (value: nat, more: seq<Arg>)
    requires TakeUnsigned(mod, args) != Wrong
    ensures TakeUnsigned(mod, args) == Taken(value, more) && value < TWO_64
  {
    match mod {
      case CharMod => value := args[0].bits % 0x100;
      case ShortMod => value := args[0].bits % 0x1_0000;
      case LongMod => value := args[0].wide;
      case SizeMod => value := args[0].wide;
      case IntmaxMod => value := args[0].wide;
      case PtrdiffMod => value := args[0].wide;
      case _ => value := args[0].bits;
    }
    more := args[1..];
  }

  method ConvUnsigned(out: Out, b: base, flags: Flags, r: Regs, sep: seq<char>) returns (args: seq<Arg>)
    requires out.Valid() && ShowUnsigned(r.mod, b, flags, r.width, r.precision, sep, r.args) != NoMeaning
    modifies out, out.str
    ensures out.Valid()
    ensures Did(ShowUnsigned(r.mod, b, flags, r.width, r.precision, sep, r.args), old(out.text), out.text, false, args)
  {
    var value;
    value, args := UnsignedArg(r.mod, r.args);
    FmtInt(out, value, b, r.width, r.precision, flags.(unsign := true), sep);
  }

  method ConvFloat(out: Out, style: Style, up: bool, r: Regs, sep: seq<char>) returns (overflow: bool, args: seq<Arg>)
    requires out.Valid() && Plain(r.flags) && r.precision >= -1
    requires ShowFloat(r.mod, style, up, r.flags, r.width, r.precision, sep, r.args) != NoMeaning
    modifies out, out.str
    ensures out.Valid()
    ensures Did(ShowFloat(r.mod, style, up, r.flags, r.width, r.precision, sep, r.args),
                old(out.text), out.text, overflow, args)
  {
    var flags, precision := r.flags, r.precision;
    if up {
      flags := flags.(up := true);
    }
    if style == Scientific {
      flags := flags.(typeE := true);
    } else if style == General {
      flags := flags.(typeG := true);
      if precision == 0 {
        precision := 1;
      }
    }
    assert flags == StyleFlags(r.flags, style, up) && precision == StylePrecision(r.precision, style);
    ghost var before := out.text;
    overflow := FmtFlt(out, r.args[0].v, r.width, precision, flags, sep);
    assert before + [] == before;
    args := r.args[1..];
    if overflow {
      args := r.args;
    }
  }

  method ConvPointer(out: Out, r: Regs, sep: seq<char>) returns (args: seq<Arg>)
    requires out.Valid() && ShowPointer(r.flags, r.width, r.precision, sep, r.args) != NoMeaning
    modifies out, out.str
    ensures out.Valid()
    ensures Did(ShowPointer(r.flags, r.width, r.precision, sep, r.args), old(out.text), out.text, false, args)
  {
    if r.args[0].addr == 0 {
      FmtStr(out, Some("(nil)"), r.width, -1, r.flags);
    } else {
      FmtInt(out, r.args[0].addr, 16, r.width, r.precision, r.flags.(num := true, unsign := true), sep);
    }
    args := r.args[1..];
  }

  method Conversion(out: Out, ch: char, r: Regs, sep: seq<char>) returns (overflow: bool, args: seq<Arg>)
    requires out.Valid() && Plain(r.flags) && r.base == 0 && r.precision >= -1
    requires ShowConv(ch, r.mod, r.flags, r.width, r.precision, sep, r.args) != NoMeaning
    modifies out, out.str
    ensures out.Valid()
    ensures Did(ShowConv(ch, r.mod, r.flags, r.width, r.precision, sep, r.args),
                old(out.text), out.text, overflow, args)
  {
    overflow, args := false, r.args;
    match ch {
      case 'd' => args := ConvSigned(out, r, sep);
      case 'i' => args := ConvSigned(out, r, sep);
      case 'X' =>
        var b := BaseOf(ch, r.base);
        args := ConvUnsigned(out, b, r.flags.(up := true), r, sep);
      case 'x' =>
        var b := BaseOf(ch, r.base);
        args := ConvUnsigned(out, b, r.flags, r, sep);
      case 'o' =>
        var b := BaseOf(ch, r.base);
        args := ConvUnsigned(out, b, r.flags, r, sep);
      case 'u' =>
        var b := BaseOf(ch, r.base);
        args := ConvUnsigned(out, b, r.flags, r, sep);
      case 'A' => overflow, args := ConvFloat(out, Fixed, true, r, sep);
      case 'F' => overflow, args := ConvFloat(out, Fixed, true, r, sep);
      case 'a' => overflow, args := ConvFloat(out, Fixed, false, r, sep);
      case 'f' => overflow, args := ConvFloat(out, Fixed, false, r, sep);
      case 'E' => overflow, args := ConvFloat(out, Scientific, true, r, sep);
      case 'e' => overflow, args := ConvFloat(out, Scientific, false, r, sep);
      case 'G' => overflow, args := ConvFloat(out, General, true, r, sep);
      case 'g' => overflow, args := ConvFloat(out, General, false, r, sep);
      case 'c' =>
        out.Emit((r.args[0].bits % 0x100) as char);
        args := r.args[1..];
      case 's' =>
        FmtStr(out, r.args[0].s, r.width, r.precision, r.flags);
        args := r.args[1..];
      case 'p' => args := ConvPointer(out, r, sep);
      case '%' => out.Emit('%');
      case _ => assert out.text + [] == out.text;
    }
  }

  // ---------- the loop ----------

  lemma PrependTwice(a: seq<char>, b: seq<char>, r: Result)
    ensures Prepend(a, Prepend(b, r)) == Prepend(a + b, r)
  {
    if !r.Undefined? {
      ConcatAssoc(a, b, r.text);
    }
  }

  /** A directive whose width and precision are known does what its conversion does. */
  lemma ConvIsAhead(r: Regs, g: Seen, s: seq<char>, sep: seq<char>)
    requires r.state == InConv && Agrees(r, g) && s != []
    ensures r.precision >= -1 && Plain(r.flags)
    ensures Ahead(r, g, s, sep) ==
            After(ShowConv(s[0], r.mod, r.flags, r.width, r.precision, sep, r.args), s[1..], sep)
  {
  }

  /** The conversion, and everything back to its initial value for the next directive. */
  method StepConv(out: Out, format: seq<char>, ghost end: nat, sep: seq<char>, pos: nat, r: Regs, ghost g: Seen)
    returns (overflow: bool, r': Regs)
    requires out.Valid() && EndsAt(format, end) && pos < end && r.state == InConv && Agrees(r, g)
    requires Ahead(r, g, format[pos..end], sep) != Undefined
    modifies out, out.str
    ensures out.Valid()
    ensures overflow ==> Ahead(r, g, format[pos..end], sep) == Overflowed([]) && out.text == old(out.text)
    ensures !overflow ==>
              && r'.state == InDefault && Agrees(r', g)
              && Prepend(old(out.text), Ahead(r, g, format[pos..end], sep)) ==
                 Prepend(out.text, Ahead(r', g, format[pos + 1..end], sep))
  {
    ghost var s := format[pos..end];
    assert s[0] == format[pos] && s[1..] == format[pos + 1..end];
    ConvIsAhead(r, g, s, sep);
    ghost var before := out.text;
    var args;
    overflow, args := Conversion(out, format[pos], r, sep);
    r' := Regs(InDefault, NoFlags, 0, -1, NoMod, 0, args);
    ghost var e := ShowConv(s[0], r.mod, r.flags, r.width, r.precision, sep, r.args);
    if !overflow {
      PrependTwice(before, e.text, Render(s[1..], sep, args));
    }
  }

  method StepDefault(out: Out, format: seq<char>, ghost end: nat, ghost sep: seq<char>, pos: nat, r: Regs, ghost g: Seen)
    returns (r': Regs, ghost g': Seen)
    requires out.Valid() && EndsAt(format, end) && pos < end && r.state == InDefault && Agrees(r, g)
    modifies out, out.str
    ensures out.Valid() && Agrees(r', g')
    ensures Prepend(old(out.text), Ahead(r, g, format[pos..end], sep)) ==
            Prepend(out.text, Ahead(r', g', format[pos + 1..end], sep))
  {
    ghost var s := format[pos..end];
    assert s[0] == format[pos] && s[1..] == format[pos + 1..end];
    r', g' := r, g;
    if format[pos] == '%' {
      r' := r.(state := InFlags);
      g' := Seen(Blank, NoAmount, r.args);
    } else {
      PrependTwice(out.text, [format[pos]], Render(s[1..], sep, r.args));
      out.Emit(format[pos]);
    }
  }

  lemma NothingKnown(args: seq<Arg>)
    ensures Resolve(NoAmount, args) == Known(0, args)
  {
  }

  lemma CutOff(d: Directive, sep: seq<char>, args: seq<Arg>)
    requires d.conv.None? && FieldOf(d.flags, d.width, args).Field?
    requires PrecisionOf(d.precision, FieldOf(d.flags, d.width, args).args).Known?
    ensures Finish(Parsed(d, []), sep, args).Text? && Finish(Parsed(d, []), sep, args).text == []
  {
  }

  /** A format that ends within a directive prints nothing more. */
  lemma EndsQuietly(r: Regs, g: Seen, sep: seq<char>)
    requires Agrees(r, g)
    ensures Ahead(r, g, [], sep).Text? && Ahead(r, g, [], sep).text == []
  {
    NothingKnown(g.before);
    match r.state {
      case InDefault =>
      case InPrecision => CutOff(g.d.(precision := Some(g.p)), sep, g.before);
      case InConv => CutOff(g.d, sep, g.before);
      case _ => CutOff(g.d.(mod := NoMod), sep, g.before);
    }
  }

  /** One turn of the loop. */
  method Step(out: Out, format: seq<char>, ghost end: nat, sep: seq<char>, pos: nat, r: Regs, ghost g: Seen)
    returns (overflow: bool, pos': nat, r': Regs, ghost g': Seen)
    requires out.Valid() && EndsAt(format, end) && pos < end && Agrees(r, g)
    requires Ahead(r, g, format[pos..end], sep) != Undefined
    modifies out, out.str
    ensures out.Valid()
    ensures overflow ==> Ahead(r, g, format[pos..end], sep) == Overflowed([]) && out.text == old(out.text)
    ensures !overflow ==>
              && pos <= pos' <= end && (pos' == pos ==> Rank(r'.state) > Rank(r.state)) && Agrees(r', g')
              && Prepend(old(out.text), Ahead(r, g, format[pos..end], sep)) ==
                 Prepend(out.text, Ahead(r', g', format[pos'..end], sep))
  {
    overflow, pos', g' := false, pos + 1, g;
    match r.state {
      case InDefault => r', g' := StepDefault(out, format, end, sep, pos, r, g);
      case InFlags => pos', r', g' := StepFlags(format, end, sep, pos, r, g);
      case InWidth => overflow, pos', r', g' := StepWidth(format, end, sep, pos, r, g);
      case InDot => pos', r', g' := StepDot(format, end, sep, pos, r, g);
      case InPrecision => overflow, pos', r', g' := StepPrecision(format, end, sep, pos, r, g);
      case InMod => pos', r', g' := StepMod(format, end, sep, pos, r, g);
      case InConv => overflow, r' := StepConv(out, format, end, sep, pos, r, g);
    }
  }

  /** The text a result stands for, and whether it is an overflow. */
  ghost predicate Printed(r: Result, text: seq<char>, overflow: bool) {
    match r
    case Text(t, _) => !overflow && text == t
    case Overflowed(t) => overflow && text == t
    case Undefined => false
  }

  /** What is printed, followed by what is ahead, is the goal. */
  ghost predicate Leads(text: seq<char>, r: Regs, g: Seen, s: seq<char>, sep: seq<char>, goal: Result) {
    Agrees(r, g) && Prepend(text, Ahead(r, g, s, sep)) == goal
  }

  lemma Stops(text: seq<char>, goal: Result)
    requires Prepend(text, Overflowed([])) == goal
    ensures Printed(goal, text, true)
  {
    assert text + [] == text;
  }

  lemma AtTheNul(text: seq<char>, r: Regs, g: Seen, sep: seq<char>, goal: Result)
    requires Leads(text, r, g, [], sep, goal)
    ensures Printed(goal, text, false)
  {
    EndsQuietly(r, g, sep);
    assert text + [] == text;
  }

  /** The registers before the first character. */
  function AtStart(args: seq<Arg>): Regs {
    Regs(InDefault, NoFlags, 0, -1, NoMod, 0, args)
  }

  lemma Starts(s: seq<char>, sep: seq<char>, args: seq<Arg>)
    ensures Leads([], AtStart(args), Seen(Blank, NoAmount, args), s, sep, Render(s, sep, args))
  {
    var goal := Render(s, sep, args);
    assert goal != Undefined ==> [] + goal.text == goal.text;
  }

  /** One turn, seen from the goal. */
  method Turn(out: Out, format: seq<char>, ghost end: nat, sep: seq<char>, pos: nat, r: Regs, ghost g: Seen,
              ghost goal: Result)
    returns (overflow: bool, pos': nat, r': Regs, ghost g': Seen)
    requires out.Valid() && EndsAt(format, end) && pos < end
    requires Leads(out.text, r, g, format[pos..end], sep, goal) && goal != Undefined
    modifies out, out.str
    ensures out.Valid()
    ensures overflow ==> Printed(goal, out.text, true)
    ensures !overflow ==>
              && pos <= pos' <= end && (pos' == pos ==> Rank(r'.state) > Rank(r.state))
              && Leads(out.text, r', g', format[pos'..end], sep, goal)
  {
    overflow, pos', r', g' := Step(out, format, end, sep, pos, r, g);
    if overflow {
      Stops(out.text, goal);
    }
  }

  /** The whole loop: every step moves on in the format or, within a character, in
      the state, and it stops at the NUL. */
  method RunFormat(out: Out, format: seq<char>, ghost end: nat, sep: seq<char>, args: seq<Arg>, ghost goal: Result)
    returns (overflow: bool)
    requires out.Valid() && out.text == [] && EndsAt(format, end)
    requires goal == Render(format[..end], sep, args) && goal != Undefined
    modifies out, out.str
    ensures out.Valid() && Printed(goal, out.text, overflow)
  {
    var pos, r := 0, AtStart(args);
    ghost var g := Seen(Blank, NoAmount, args);
    assert format[0..end] == format[..end];
    Starts(format[..end], sep, args);
    overflow := false;
    while format[pos] != '\0'
      invariant pos <= end && out.Valid() && Leads(out.text, r, g, format[pos..end], sep, goal)
      decreases end - pos, 7 - Rank(r.state)
    {
      overflow, pos, r, g := Turn(out, format, end, sep, pos, r, g, goal);
      if overflow {
        return;
      }
    }
    assert pos == end && format[pos..end] == [];
    AtTheNul(out.text, r, g, sep, goal);
  }

  /** The characters before the first NUL. */
  function TextOf(format: seq<char>): (s: seq<char>)
    requires '\0' in format
    ensures EndsAt(format, |s|) && s == format[..|s|]
  {
    if format[0] == '\0' then [] else
      var s := TextOf(format[1..]);
      assert forall i :: 0 <= i < |s| ==> s[i] == format[1 + i];
      assert [format[0]] + s == format[..|s| + 1];
      [format[0]] + s
  }

  /** What vsnprintf returns: the length of the whole text, or -1. */
  function Returned(r: Result): int {
    match r
    case Text(t, _) => if |t| >= INT_MAX then -1 else |t|
    case _ => -1
  }

  function TextIn(r: Result): seq<char>
    requires r != Undefined
  {
    r.text
  }

  /** The buffer afterwards: the first size - 1 characters of the text at most, a NUL,
      and what was there before behind it; with size zero nothing is written. */
  ghost predicate Holds(buffer: seq<char>, text: seq<char>, size: nat, before: seq<char>)
    requires size <= |before|
  {
    if size == 0 then buffer == before
    else
      var n := Min(|text|, size - 1);
      buffer == text[..n] + ['\0'] + before[n + 1..]
  }

  /** rpl_vsnprintf, for every format, arguments and size: the return value does not
      depend on the size, and the buffer holds as much of the same text as fits. */
  method Vsnprintf(str: array?<char>, size: nat, format: seq<char>, sep: seq<char>, args: seq<Arg>)
    returns (n: int)
    requires '\0' in format && Render(TextOf(format), sep, args) != Undefined
    requires str != null ==> size <= str.Length
    modifies str
    ensures n == Returned(Render(TextOf(format), sep, args))
    ensures str != null ==> Holds(str[..], TextIn(Render(TextOf(format), sep, args)), size, old(str[..]))
  {
    var buffer, room := str, size;
    if str == null {
      buffer, room := new char[0], 0;
    }
    ghost var goal := Render(TextOf(format), sep, args);
    var out := new Out(buffer, room);
    var overflow := RunFormat(out, format, |TextOf(format)|, sep, args, goal);
    out.Terminate();
    n := if overflow || out.len >= INT_MAX then -1 else out.len;
  }
}
