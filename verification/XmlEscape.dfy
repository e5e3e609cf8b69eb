/** fprint_xml_esc of src/check_print.c: what an XML reader makes of its output. */
module XmlEscape {
  import opened Base
  import opened Sink
  import opened Digits

  /** A C `char` where it is signed. */
  type schar = c: int | -128 <= c <= 127

  // ---------- the escaper ----------

  /** The characters it keeps: XML's white space, and what is not a control character. */
  predicate Kept(c: schar) {
    c == 0x9 || c == 0xA || c == 0xD || c >= 0x20
  }

  function NameOf(c: schar): string {
    if c == '"' as int then "quot"
    else if c == '\'' as int then "apos"
    else if c == '<' as int then "lt"
    else if c == '>' as int then "gt"
    else if c == '&' as int then "amp"
    else ""
  }

  predicate Printable(c: schar) {
    ' ' as int <= c <= '~' as int
  }

  /** The text written for one character. */
  function EscapeOne(c: schar): seq<char> {
    if NameOf(c) != "" then ['&'] + NameOf(c) + [';']
    else if Printable(c) then [c as char]
    else if Kept(c) then ['&'] + ("#x" + DigitsOf(c, 16, true)) + [';']
    else []
  }

  function Escape(s: seq<schar>): seq<char> {
    if s == [] then [] else EscapeOne(s[0]) + Escape(s[1..])
  }

  class Stream {
    var text: seq<char>

    constructor ()
      ensures text == []
    {
      text := [];
    }

    method Puts(s: seq<char>)
      modifies this
      ensures text == old(text) + s
    {
      text := text + s;
    }
  }

  /** The length of a C string. */
  function Length(str: seq<schar>): (n: nat)
    requires 0 in str
    ensures n < |str| && str[n] == 0 && forall i :: 0 <= i < n ==> str[i] != 0
  {
    if str[0] == 0 then 0 else 1 + Length(str[1..])
  }

  /** The loop over the string, one character and its case at a time. */
  method FprintXmlEsc(file: Stream, str: seq<schar>)
    requires 0 in str
    modifies file
    ensures file.text == old(file.text) + Escape(str[..Length(str)])
  {
    var i := 0;
    ghost var left := str[..Length(str)];
    ghost var goal := file.text + Escape(left);
    while str[i] != 0
      invariant 0 <= i <= Length(str) && left == str[i..Length(str)]
      invariant file.text + Escape(left) == goal
      decreases Length(str) - i
    {
      assert left[0] == str[i];
      ConcatAssoc(file.text, EscapeOne(str[i]), Escape(left[1..]));
      PutOne(file, str[i]);
      i, left := i + 1, left[1..];
    }
    assert file.text + [] == file.text;
  }

  method PutOne(file: Stream, next: schar)
    modifies file
    ensures file.text == old(file.text) + EscapeOne(next)
  {
    if next == '"' as int {
      file.Puts("&quot;");
    } else if next == '\'' as int {
      file.Puts("&apos;");
    } else if next == '<' as int {
      file.Puts("&lt;");
    } else if next == '>' as int {
      file.Puts("&gt;");
    } else if next == '&' as int {
      file.Puts("&amp;");
    } else if next >= ' ' as int && next <= '~' as int {
      file.Puts([next as char]);
    } else if next == 0x9 || next == 0xA || next == 0xD || next >= 0x20 {
      file.Puts(['&'] + ("#x" + DigitsOf(next, 16, true)) + [';']);
    } else {
      file.Puts([]);
    }
  }

  // ---------- a reader of character data ----------

  /** The number of characters before the first ';'. */
  function UpToSemicolon(s: seq<char>): (n: nat)
    ensures n <= |s|
  {
    if s == [] || s[0] == ';' then 0 else 1 + UpToSemicolon(s[1..])
  }

  /** Predefined entities (section 4.6 of XML 1.0) and hexadecimal character
      references (section 4.1). */
  function Reference(name: seq<char>): Option<int> {
    if name == "quot" then Some(34)
    else if name == "apos" then Some(39)
    else if name == "lt" then Some(60)
    else if name == "gt" then Some(62)
    else if name == "amp" then Some(38)
    else if |name| > 2 && name[..2] == "#x" && AllDigits(name[2..], 16) then Some(Read(name[2..], 16))
    else None
  }

  /** The characters a piece of character data or of a quoted attribute denotes; none
      where it is not well formed. */
  function Unescape(s: seq<char>): Option<seq<int>>
    decreases |s|
  {
    if s == [] then Some([])
    else if s[0] in "<>\"'" then None
    else if s[0] != '&' then
      var more := Unescape(s[1..]);
      if more.None? then None else Some([s[0] as int] + more.value)
    else
      var n := UpToSemicolon(s[1..]);
      if n + 1 == |s| then None
      else
        var c, more := Reference(s[1..n + 1]), Unescape(s[n + 2..]);
        if c.None? || more.None? then None else Some([c.value] + more.value)
  }

  function KeptOf(s: seq<schar>): seq<int> {
    if s == [] then [] else (if Kept(s[0]) then [s[0]] else []) + KeptOf(s[1..])
  }

  lemma {:induction false} SemicolonFound(name: seq<char>, rest: seq<char>)
    requires ';' !in name
    ensures UpToSemicolon(name + ([';'] + rest)) == |name|
    decreases |name|
  {
    var s := name + ([';'] + rest);
    if name == [] {
      assert s[0] == ';';
    } else {
      assert s[0] == name[0] && s[1..] == name[1..] + ([';'] + rest);
      SemicolonFound(name[1..], rest);
    }
  }

  lemma ReferenceRead(name: seq<char>, rest: seq<char>, c: int)
    requires ';' !in name && Reference(name) == Some(c)
    ensures
      var s, more := ['&'] + name + [';'] + rest, Unescape(rest);
      Unescape(s) == if more.None? then None else Some([c] + more.value)
  {
    var s := ['&'] + name + [';'] + rest;
    assert s[0] == '&' && s[1..] == name + ([';'] + rest);
    SemicolonFound(name, rest);
    assert s[1..|name| + 1] == name && s[|name| + 2..] == rest;
  }

  lemma HexReference(c: schar)
    requires c > 0
    ensures Reference("#x" + DigitsOf(c, 16, true)) == Some(c) && ';' !in "#x" + DigitsOf(c, 16, true)
  {
    var ds := DigitsOf(c, 16, true);
    var name := "#x" + ds;
    ReadDigits(c, 16, true);
    assert name[..2] == "#x" && name[2..] == ds && name[0] == '#';
    forall i | 0 <= i < |name| ensures name[i] != ';' {
      assert i >= 2 ==> name[i] == ds[i - 2] && 0 <= DigitVal(ds[i - 2]);
    }
  }

  /** One character, escaped, reads as itself, or as nothing if it is not kept. */
  lemma OneReadBack(c: schar, rest: seq<char>)
    requires c != 0
    ensures Unescape(EscapeOne(c) + rest) == Before(if Kept(c) then [c] else [], Unescape(rest))
  {
    if NameOf(c) != "" {
      NamedReadBack(c, rest);
    } else if Printable(c) {
      PlainReadBack(c, rest);
    } else if Kept(c) {
      HexReference(c);
      ReferenceRead("#x" + DigitsOf(c, 16, true), rest, c);
    } else {
      assert EscapeOne(c) + rest == rest;
      NothingBefore(Unescape(rest));
    }
  }

  function Before(cs: seq<int>, more: Option<seq<int>>): Option<seq<int>> {
    if more.None? then None else Some(cs + more.value)
  }

  lemma NothingBefore(more: Option<seq<int>>)
    ensures Before([], more) == more
  {
    assert more.Some? ==> [] + more.value == more.value;
  }

  lemma NamedReadBack(c: schar, rest: seq<char>)
    requires NameOf(c) != ""
    ensures Unescape(EscapeOne(c) + rest) == Before([c], Unescape(rest)) && Kept(c)
  {
    ReferenceRead(NameOf(c), rest, c);
  }

  lemma PlainReadBack(c: schar, rest: seq<char>)
    requires NameOf(c) == "" && Printable(c)
    ensures Unescape(EscapeOne(c) + rest) == Before([c], Unescape(rest)) && Kept(c)
  {
    var s := EscapeOne(c) + rest;
    assert s[0] == c as char && s[1..] == rest;
  }

  /** For every string, a reader of the output gets the string minus the control
      characters that XML 1.0 does not allow (and minus bytes above 7F). */
  lemma {:induction false} EscapeReadsBack(s: seq<schar>)
    requires 0 !in s
    ensures Unescape(Escape(s)) == Some(KeptOf(s))
    decreases |s|
  {
    if s != [] {
      EscapeReadsBack(s[1..]);
      OneReadBack(s[0], Escape(s[1..]));
    }
  }

  /** Printable, and neither a quote nor an angle bracket. */
  predicate Inert(c: char) {
    ' ' <= c <= '~' && c != '<' && c != '>' && c != '"' && c != '\''
  }

  predicate AllInert(s: seq<char>) {
    forall i :: 0 <= i < |s| ==> Inert(s[i])
  }

  /** Nothing in the output can be taken for markup or end a quoted attribute. */
  lemma {:induction false} EscapeIsInert(s: seq<schar>)
    ensures AllInert(Escape(s))
    decreases |s|
  {
    if s != [] {
      EscapeIsInert(s[1..]);
      OneIsInert(s[0]);
    }
  }

  lemma ReferenceIsInert(name: seq<char>)
    requires AllInert(name)
    ensures AllInert(['&'] + name + [';'])
  {
  }

  lemma OneIsInert(c: schar)
    ensures AllInert(EscapeOne(c))
  {
    if NameOf(c) != "" {
      ReferenceIsInert(NameOf(c));
    } else if !Printable(c) && Kept(c) {
      var ds := DigitsOf(c, 16, true);
      ReadDigits(c, 16, true);
      forall i | 0 <= i < |ds| ensures Inert(ds[i]) {
        assert 0 <= DigitVal(ds[i]);
      }
      assert AllInert("#x" + ds);
      ReferenceIsInert("#x" + ds);
    }
  }
}
