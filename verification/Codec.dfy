/** The wire format of src/check_pack.c: four kinds of message, each a big-endian
    type word followed by its payload, with no record length and no separator. */
module Codec {
  import opened Base

  // ---------- messages ----------

  const CTX_INVALID: uint32 := 0
  const CTX_SETUP: uint32 := 1
  const CTX_TEST: uint32 := 2
  const CTX_TEARDOWN: uint32 := 3

  const MSG_CTX: uint32 := 0
  const MSG_FAIL: uint32 := 1
  const MSG_LOC: uint32 := 2
  const MSG_DURATION: uint32 := 3

  /** A message as the receiver sees it. */
  datatype Msg =
    | Ctx(ctx: uint32)
    | Fail(text: cstr)
    | Loc(file: cstr, line: int32)
    | Duration(usec: int32)

  /** A message as the sender hands it over: the union CheckMsg, whose strings may be NULL. */
  datatype RawMsg =
    | RawCtx(ctx: uint32)
    | RawFail(text: Option<cstr>)
    | RawLoc(file: Option<cstr>, line: int32)
    | RawDuration(usec: int32)

  function StringOf(p: Option<cstr>): (s: cstr) {
    if p.Some? then p.value else []
  }

  /** The message a union denotes; a NULL string denotes the empty one. */
  function Denote(raw: RawMsg): Msg {
    match raw
    case RawCtx(c) => Ctx(c)
    case RawFail(t) => Fail(StringOf(t))
    case RawLoc(f, l) => Loc(StringOf(f), l)
    case RawDuration(d) => Duration(d)
  }

  function WireSize(m: Msg): nat {
    match m
    case Ctx(_) => 8
    case Fail(t) => 8 + |t|
    case Loc(f, _) => 12 + |f|
    case Duration(_) => 8
  }

  /** The messages `pack` accepts: a negative line or duration becomes a huge
      size_t, and the length must fit an int. */
  predicate Packable(m: Msg) {
    && WireSize(m) <= INT_MAX
    && (m.Loc? ==> 0 <= m.line)
    && (m.Duration? ==> 0 <= m.usec)
  }

  // ---------- the format ----------

  /** The value of bytes read most significant first. */
  function Value(s: seq<byte>): (v: nat)
    decreases |s|
  {
    if s == [] then 0 else 0x100 * Value(s[..|s| - 1]) + s[|s| - 1]
  }

  function Bytes(v: uint32): (s: seq<byte>) {
    [v / 0x100_0000, v / 0x1_0000 % 0x100, v / 0x100 % 0x100, v % 0x100]
  }

  lemma ValueOfFour(s: seq<byte>)
    requires |s| == 4
    ensures Value(s) == s[0] as int * 0x100_0000 + s[1] as int * 0x1_0000 + s[2] as int * 0x100 + s[3] as int
  {
    assert s[..3][..2] == s[..2] && s[..3][..2][..1] == s[..1] && s[..1][..0] == [];
    assert Value(s[..1]) == s[0];
    assert Value(s[..2]) == 0x100 * Value(s[..1]) + s[1];
    assert Value(s[..3]) == 0x100 * Value(s[..2]) + s[2];
  }

  /** Every word has its four bytes... */
  lemma WordExists(v: uint32)
    ensures |Bytes(v)| == 4 && Value(Bytes(v)) == v
  {
    ValueOfFour(Bytes(v));
    var hi := v / 0x1_0000;
    assert v == 0x1_0000 * hi + 0x100 * (v / 0x100 % 0x100) + v % 0x100;
    assert hi == 0x100 * (hi / 0x100) + hi % 0x100 && hi / 0x100 == v / 0x100_0000;
  }

  /** ... and no two words share them. */
  lemma WordUnique(s: seq<byte>, t: seq<byte>)
    requires |s| == |t| == 4 && Value(s) == Value(t)
    ensures s == t
  {
    ValueOfFour(s);
    ValueOfFour(t);
    assert s[0] == t[0] && s[1] == t[1] && s[2] == t[2] && s[3] == t[3];
  }

  /** The four bytes whose big-endian value is `v`. */
  ghost function Word(v: uint32): (s: seq<byte>)
    ensures |s| == 4 && Value(s) == v
  {
    WordExists(v);
    var w: seq<byte> :| |w| == 4 && Value(w) == v;
    w
  }

  lemma WordBytes(v: uint32)
    ensures Word(v) == Bytes(v)
  {
    WordExists(v);
    WordUnique(Word(v), Bytes(v));
  }

  ghost function EncodeStr(s: cstr): (r: seq<byte>)
    requires |s| <= UINT32_MAX
    ensures |r| == 4 + |s|
  {
    Word(|s|) + s
  }

  function Kind(m: Msg): uint32 {
    match m
    case Ctx(_) => MSG_CTX
    case Fail(_) => MSG_FAIL
    case Loc(_, _) => MSG_LOC
    case Duration(_) => MSG_DURATION
  }

  ghost function EncodePayload(m: Msg): (r: seq<byte>)
    requires Packable(m)
    ensures |r| == WireSize(m) - 4
  {
    match m
    case Ctx(c) => Word(c)
    case Fail(t) => EncodeStr(t)
    case Loc(f, l) => EncodeStr(f) + Word(l)
    case Duration(d) => Word(d)
  }

  ghost function Encode(m: Msg): (r: seq<byte>)
    requires Packable(m)
    ensures |r| == WireSize(m)
  {
    Word(Kind(m)) + EncodePayload(m)
  }

  datatype Decoded = Decoded(msg: Msg, size: nat)

  function DecodeWord(s: seq<byte>): Outcome<uint32> {
    if |s| < 4 then Err(OutOfBuffer) else ValueOfFour(s[..4]); Ok(Value(s[..4]))
  }

  /** The text and the number of bytes taken from the front of `s`. */
  function DecodeStr(s: seq<byte>): (r: Outcome<(cstr, nat)>)
    ensures r.Ok? ==> 4 <= r.value.1 <= |s|
  {
    var n :- DecodeWord(s);
    if |s| < 4 + n then Err(OutOfBuffer) else Ok((CutAtNul(s[4..4 + n]), 4 + n))
  }

  function DecodeInt(s: seq<byte>): Outcome<int32> {
    var v :- DecodeWord(s);
    if v > INT_MAX then Err(TooBig) else Ok(v)
  }

  function DecodePayload(kind: uint32, s: seq<byte>): (r: Outcome<Decoded>)
    ensures r.Ok? ==> 4 <= r.value.size <= |s|
  {
    if kind == MSG_CTX then
      var c :- DecodeWord(s);
      Ok(Decoded(Ctx(c), 4))
    else if kind == MSG_FAIL then
      var t :- DecodeStr(s);
      Ok(Decoded(Fail(t.0), t.1))
    else if kind == MSG_LOC then
      var f :- DecodeStr(s);
      var l :- DecodeInt(s[f.1..]);
      Ok(Decoded(Loc(f.0, l), f.1 + 4))
    else if kind == MSG_DURATION then
      var d :- DecodeInt(s);
      Ok(Decoded(Duration(d), 4))
    else
      Err(BadType)
  }

  /** Reads one message off the front of a buffer. */
  function Decode(s: seq<byte>): (r: Outcome<Decoded>)
    ensures r.Ok? ==> 8 <= r.value.size <= |s|
  {
    var kind :- DecodeWord(s);
    var d :- DecodePayload(kind, s[4..]);
    if d.size + 4 > INT_MAX then Err(TooBig) else Ok(Decoded(d.msg, d.size + 4))
  }

  // ---------- round trip, locality, prefix freedom ----------

  lemma WordRoundTrip(v: uint32, rest: seq<byte>)
    ensures DecodeWord(Word(v) + rest) == Ok(v)
    ensures (Word(v) + rest)[4..] == rest
  {
    assert (Word(v) + rest)[..4] == Word(v);
  }

  lemma StrRoundTrip(t: cstr, rest: seq<byte>)
    requires |t| <= UINT32_MAX
    ensures DecodeStr(EncodeStr(t) + rest) == Ok((t, 4 + |t|))
    ensures (EncodeStr(t) + rest)[4 + |t|..] == rest
  {
    var s := EncodeStr(t) + rest;
    assert s == Word(|t|) + (t + rest);
    WordRoundTrip(|t|, t + rest);
    assert s[4..4 + |t|] == t;
    CutAtNulIdentity(t);
  }

  lemma PayloadRoundTrip(m: Msg, rest: seq<byte>)
    requires Packable(m)
    ensures DecodePayload(Kind(m), EncodePayload(m) + rest) == Ok(Decoded(m, WireSize(m) - 4))
  {
    match m
    case Ctx(c) => WordRoundTrip(c, rest);
    case Fail(t) => StrRoundTrip(t, rest);
    case Loc(f, l) =>
      assert EncodePayload(m) + rest == EncodeStr(f) + (Word(l) + rest);
      StrRoundTrip(f, Word(l) + rest);
      WordRoundTrip(l, rest);
    case Duration(d) => WordRoundTrip(d, rest);
  }

  /** Whatever follows it, a packed message decodes to itself and takes exactly
      the bytes it was packed into. */
  lemma RoundTrip(m: Msg, rest: seq<byte>)
    requires Packable(m)
    ensures Decode(Encode(m) + rest) == Ok(Decoded(m, WireSize(m)))
  {
    var tail := EncodePayload(m) + rest;
    ConcatAssoc(Word(Kind(m)), EncodePayload(m), rest);
    WordRoundTrip(Kind(m), tail);
    PayloadRoundTrip(m, rest);
  }

  lemma PayloadIsLocal(kind: uint32, s: seq<byte>, t: seq<byte>)
    requires DecodePayload(kind, s).Ok?
    requires DecodePayload(kind, s).value.size <= |t|
    requires s[..DecodePayload(kind, s).value.size] == t[..DecodePayload(kind, s).value.size]
    ensures DecodePayload(kind, t) == DecodePayload(kind, s)
  {
    var n := DecodePayload(kind, s).value.size;
    assert s[..4] == s[..n][..4] == t[..4];
    if kind == MSG_FAIL || kind == MSG_LOC {
      var len := DecodeWord(s).value;
      assert s[4..4 + len] == s[..n][4..4 + len] == t[4..4 + len];
      if kind == MSG_LOC {
        assert s[4 + len..][..4] == s[..n][4 + len..] == t[4 + len..][..4];
      }
    }
  }

  /** Decoding depends only on the bytes it says it takes. */
  lemma DecodeIsLocal(s: seq<byte>, t: seq<byte>)
    requires Decode(s).Ok?
    requires Decode(s).value.size <= |t|
    requires s[..Decode(s).value.size] == t[..Decode(s).value.size]
    ensures Decode(t) == Decode(s)
  {
    var n := Decode(s).value.size;
    assert s[..4] == s[..n][..4] == t[..4];
    assert s[4..][..n - 4] == s[..n][4..] == t[4..][..n - 4];
    PayloadIsLocal(DecodeWord(s).value, s[4..], t[4..]);
  }

  predicate AllPackable(ms: seq<Msg>) {
    forall i :: 0 <= i < |ms| ==> Packable(ms[i])
  }

  /** What a file holds after the messages were appended to it in order. */
  ghost function EncodeAll(ms: seq<Msg>): (r: seq<byte>)
    requires AllPackable(ms)
  {
    if ms == [] then [] else Encode(ms[0]) + EncodeAll(ms[1..])
  }

  lemma {:induction false} EncodeAllAppend(a: seq<Msg>, b: seq<Msg>)
    requires AllPackable(a) && AllPackable(b)
    ensures EncodeAll(a + b) == EncodeAll(a) + EncodeAll(b)
  {
    if a == [] {
      assert a + b == b;
    } else {
      assert (a + b)[1..] == a[1..] + b && (a + b)[0] == a[0];
      calc {
        EncodeAll(a + b);
        Encode(a[0]) + EncodeAll(a[1..] + b);
        { EncodeAllAppend(a[1..], b); }
        Encode(a[0]) + (EncodeAll(a[1..]) + EncodeAll(b));
        { ConcatAssoc(Encode(a[0]), EncodeAll(a[1..]), EncodeAll(b)); }
        EncodeAll(a) + EncodeAll(b);
      }
    }
  }

  lemma EncodeOne(ms: seq<Msg>, m: Msg)
    requires AllPackable(ms) && Packable(m)
    ensures AllPackable(ms + [m]) && EncodeAll(ms + [m]) == EncodeAll(ms) + Encode(m)
  {
    EncodeAllAppend(ms, [m]);
    assert EncodeAll([m]) == Encode(m) by {
      assert [m][1..] == [];
      assert Encode(m) + [] == Encode(m);
    }
  }

  /** The simple reading of a whole file: message after message, none longer than
      `cap`, until nothing is left. */
  function ParseAll(s: seq<byte>, cap: nat): (r: Option<seq<Msg>>)
    decreases |s|
  {
    if s == [] then
      Some([])
    else
      var d := Decode(s);
      if d.Err? || d.value.size > cap then
        None
      else
        var rest := ParseAll(s[d.value.size..], cap);
        if rest.None? then None else Some([d.value.msg] + rest.value)
  }

  ghost predicate AllWithin(ms: seq<Msg>, cap: nat) {
    forall i :: 0 <= i < |ms| ==> Packable(ms[i]) && WireSize(ms[i]) <= cap
  }

  lemma ParseOne(m: Msg, rest: seq<byte>, cap: nat)
    requires Packable(m) && WireSize(m) <= cap
    ensures ParseAll(Encode(m) + rest, cap) ==
            (var r := ParseAll(rest, cap); if r.None? then None else Some([m] + r.value))
  {
    RoundTrip(m, rest);
    assert (Encode(m) + rest)[WireSize(m)..] == rest;
  }

  /** Parsing undoes encoding, and goes on behind it. */
  lemma {:induction false} ParseEncoded(ms: seq<Msg>, tail: seq<byte>, cap: nat)
    requires AllWithin(ms, cap)
    ensures AllPackable(ms)
    ensures ParseAll(EncodeAll(ms) + tail, cap) ==
            (var r := ParseAll(tail, cap); if r.None? then None else Some(ms + r.value))
  {
    var r := ParseAll(tail, cap);
    if ms == [] {
      assert EncodeAll(ms) + tail == tail;
      assert r.Some? ==> ms + r.value == r.value;
    } else {
      var rest := EncodeAll(ms[1..]) + tail;
      ConcatAssoc(Encode(ms[0]), EncodeAll(ms[1..]), tail);
      var p := ParseAll(rest, cap);
      assert p == (if r.None? then None else Some(ms[1..] + r.value)) by {
        ParseEncoded(ms[1..], tail, cap);
      }
      assert ParseAll(EncodeAll(ms) + tail, cap) == (if p.None? then None else Some([ms[0]] + p.value)) by {
        ParseOne(ms[0], rest, cap);
      }
      if r.Some? {
        ConcatAssoc([ms[0]], ms[1..], r.value);
        assert ms == [ms[0]] + ms[1..];
      }
    }
  }

  lemma ParseWhole(ms: seq<Msg>, cap: nat)
    requires AllWithin(ms, cap) && AllPackable(ms)
    ensures ParseAll(EncodeAll(ms), cap) == Some(ms)
  {
    ParseEncoded(ms, [], cap);
    assert EncodeAll(ms) + [] == EncodeAll(ms);
    assert ms + [] == ms;
  }

  /** The encoding of message lists is injective. */
  lemma EncodeAllInjective(a: seq<Msg>, b: seq<Msg>)
    requires AllPackable(a) && AllPackable(b)
    requires EncodeAll(a) == EncodeAll(b)
    ensures a == b
  {
    ParseWhole(a, INT_MAX);
    ParseWhole(b, INT_MAX);
  }

  lemma TornMessageIsRejected(m: Msg, k: nat, cap: nat)
    requires Packable(m) && 0 < k < WireSize(m)
    ensures ParseAll(Encode(m)[..k], cap) == None
  {
    var s := Encode(m)[..k];
    if Decode(s).Ok? {
      var n := Decode(s).value.size;
      assert s[..n] == Encode(m)[..n];
      assert Encode(m) + [] == Encode(m);
      RoundTrip(m, []);
      DecodeIsLocal(s, Encode(m));
    }
  }

  /** A file torn inside a message, anywhere after its first byte and before its
      last, is never read as messages. */
  lemma TornFileIsRejected(ms: seq<Msg>, m: Msg, k: nat, cap: nat)
    requires AllWithin(ms, cap) && AllPackable(ms)
    requires Packable(m) && 0 < k < WireSize(m)
    ensures ParseAll(EncodeAll(ms) + Encode(m)[..k], cap) == None
  {
    ParseEncoded(ms, Encode(m)[..k], cap);
    TornMessageIsRejected(m, k, cap);
  }

  // ---------- the packers ----------

  /** pack_int: four bytes at `pos`, cursor moved past them. */
  method PackInt(buf: array<byte>, pos: nat, v: uint32) returns (next: nat)
    requires pos + 4 <= buf.Length
    modifies buf
    ensures next == pos + 4
    ensures buf[..next] == old(buf[..pos]) + Word(v)
  {
    buf[pos] := v / 0x100_0000;
    buf[pos + 1] := v / 0x1_0000 % 0x100;
    buf[pos + 2] := v / 0x100 % 0x100;
    buf[pos + 3] := v % 0x100;
    next := pos + 4;
    assert buf[pos..next] == Bytes(v);
    WordBytes(v);
  }

  /** pack_str: the length word, then the bytes. */
  method PackStr(buf: array<byte>, pos: nat, val: Option<cstr>) returns (next: nat)
    requires |StringOf(val)| <= UINT32_MAX
    requires pos + 4 + |StringOf(val)| <= buf.Length
    modifies buf
    ensures next == pos + 4 + |StringOf(val)|
    ensures buf[..next] == old(buf[..pos]) + EncodeStr(StringOf(val))
  {
    var s := StringOf(val);
    next := PackInt(buf, pos, |s|);
    ghost var head := buf[..next];
    for i := 0 to |s|
      invariant buf[..next] == head
      invariant forall k :: 0 <= k < i ==> buf[next + k] == s[k]
    {
      buf[next + i] := s[i];
    }
    assert buf[..next + |s|] == head + s;
    next := next + |s|;
  }

  method PackCtx(ctx: uint32) returns (r: Outcome<array<byte>>)
    ensures r.Ok? <==> Packable(Ctx(ctx))
    ensures r.Ok? ==> fresh(r.value) && r.value[..] == Encode(Ctx(ctx))
  {
    var buf := new byte[8];
    var pos := PackInt(buf, 0, MSG_CTX);
    pos := PackInt(buf, pos, ctx);
    assert buf[..] == buf[..pos];
    r := Ok(buf);
  }

  method PackFail(text: Option<cstr>) returns (r: Outcome<array<byte>>)
    ensures r.Ok? <==> Packable(Fail(StringOf(text)))
    ensures r.Ok? ==> fresh(r.value) && r.value[..] == Encode(Fail(StringOf(text)))
  {
    if 8 + |StringOf(text)| > INT_MAX {
      return Err(TooBig);
    }
    var buf := new byte[8 + |StringOf(text)|];
    var pos := PackInt(buf, 0, MSG_FAIL);
    pos := PackStr(buf, pos, text);
    assert buf[..] == buf[..pos];
    r := Ok(buf);
  }

  method PackLoc(file: Option<cstr>, line: int32) returns (r: Outcome<array<byte>>)
    ensures r.Ok? <==> Packable(Loc(StringOf(file), line))
    ensures r.Ok? ==> fresh(r.value) && r.value[..] == Encode(Loc(StringOf(file), line))
  {
    if 12 + |StringOf(file)| > INT_MAX || line < 0 {
      return Err(TooBig);
    }
    var buf := new byte[12 + |StringOf(file)|];
    var pos := PackInt(buf, 0, MSG_LOC);
    ghost var head, name := Word(MSG_LOC), EncodeStr(StringOf(file));
    pos := PackStr(buf, pos, file);
    assert buf[..pos] == head + name;
    pos := PackInt(buf, pos, line);
    assert buf[..pos] == (head + name) + Word(line);
    ConcatAssoc(head, name, Word(line));
    assert buf[..] == buf[..pos];
    r := Ok(buf);
  }

  method PackDuration(usec: int32) returns (r: Outcome<array<byte>>)
    ensures r.Ok? <==> Packable(Duration(usec))
    ensures r.Ok? ==> fresh(r.value) && r.value[..] == Encode(Duration(usec))
  {
    if usec < 0 {
      return Err(TooBig);
    }
    var buf := new byte[8];
    var pos := PackInt(buf, 0, MSG_DURATION);
    pos := PackInt(buf, pos, usec);
    assert buf[..] == buf[..pos];
    r := Ok(buf);
  }

  /** pack: the packer of the message's kind. */
  method Pack(raw: RawMsg) returns (r: Outcome<array<byte>>)
    ensures r.Ok? <==> Packable(Denote(raw))
    ensures r.Ok? ==> fresh(r.value) && r.value[..] == Encode(Denote(raw))
  {
    match raw
    case RawCtx(c) => r := PackCtx(c);
    case RawFail(t) => r := PackFail(t);
    case RawLoc(f, l) => r := PackLoc(f, l);
    case RawDuration(d) => r := PackDuration(d);
  }

  // ---------- the unpackers ----------

  /** upack_int, as an explicit fault when the word is not inside the buffer. */
  method UpackInt(buf: array<byte>, pos: nat) returns (r: Outcome<uint32>)
    requires pos <= buf.Length
    ensures r == DecodeWord(buf[pos..])
  {
    if pos + 4 > buf.Length {
      return Err(OutOfBuffer);
    }
    var w := buf[pos..pos + 4];
    ValueOfFour(w);
    assert buf[pos..][..4] == w;
    r := Ok(w[0] as int * 0x100_0000 + w[1] as int * 0x1_0000 + w[2] as int * 0x100 + w[3] as int);
  }

  /** upack_str: the text, and the cursor behind it. */
  method UpackStr(buf: array<byte>, pos: nat) returns (r: Outcome<(cstr, nat)>)
    requires pos <= buf.Length
    ensures DecodeStr(buf[pos..]).Err? ==> r == DecodeStr(buf[pos..])
    ensures DecodeStr(buf[pos..]).Ok? ==>
              r == Ok((DecodeStr(buf[pos..]).value.0, pos + DecodeStr(buf[pos..]).value.1))
  {
    var n :- UpackInt(buf, pos);
    if pos + 4 + n > buf.Length {
      return Err(OutOfBuffer);
    }
    assert buf[pos..][4..4 + n] == buf[pos + 4..pos + 4 + n];
    r := Ok((CutAtNul(buf[pos + 4..pos + 4 + n]), pos + 4 + n));
  }

  /** upack: dispatches on the type word at the front of the buffer. */
  method Upack(buf: array<byte>) returns (r: Outcome<Decoded>)
    ensures r == Decode(buf[..])
  {
    var kind :- UpackInt(buf, 0);
    var pos: nat := 4;
    var msg: Msg;
    assert buf[0..] == buf[..] && buf[..][4..] == buf[4..];
    if kind == MSG_CTX {
      var c :- UpackInt(buf, pos);
      msg, pos := Ctx(c), pos + 4;
    } else if kind == MSG_FAIL {
      var t :- UpackStr(buf, pos);
      msg, pos := Fail(t.0), t.1;
    } else if kind == MSG_LOC {
      var f :- UpackStr(buf, pos);
      assert buf[4..][f.1 - 4..] == buf[f.1..];
      var l :- UpackInt(buf, f.1);
      if l > INT_MAX {
        return Err(TooBig);
      }
      msg, pos := Loc(f.0, l), f.1 + 4;
    } else if kind == MSG_DURATION {
      var d :- UpackInt(buf, pos);
      if d > INT_MAX {
        return Err(TooBig);
      }
      msg, pos := Duration(d), pos + 4;
    } else {
      return Err(BadType);
    }
    if pos > INT_MAX {
      return Err(TooBig);
    }
    r := Ok(Decoded(msg, pos));
  }
}
