/** The receiving end of src/check_pack.c: how messages update an RcvMsg, and
    `punpack`, which reads them off a file through a window of fixed size. */
module Receive {
  import opened Base
  import opened Codec

  // ---------- what the messages mean ----------

  /** The fields of struct RcvMsg; a NULL pointer is None. */
  datatype Rcv = Rcv(
    lastctx: uint32,
    failctx: uint32,
    fixtureFile: Option<cstr>,
    fixtureLine: int32,
    testFile: Option<cstr>,
    testLine: int32,
    text: Option<cstr>,
    usec: int32)

  const FreshRcv: Rcv := Rcv(CTX_INVALID, CTX_INVALID, None, -1, None, -1, None, -1)

  function Update(r: Rcv, m: Msg): Rcv {
    match m
    case Ctx(c) =>
      if r.lastctx != CTX_INVALID
      then r.(fixtureFile := None, fixtureLine := -1, lastctx := c)
      else r.(lastctx := c)
    case Loc(f, l) =>
      if r.failctx != CTX_INVALID then r
      else if r.lastctx == CTX_TEST then r.(testFile := Some(f), testLine := l)
      else r.(fixtureFile := Some(f), fixtureLine := l)
    case Fail(t) =>
      if r.text.None? then r.(text := Some(t), failctx := r.lastctx) else r
    case Duration(d) => r.(usec := d)
  }

  function Fold(r: Rcv, ms: seq<Msg>): Rcv
    decreases |ms|
  {
    if ms == [] then r else Fold(Update(r, ms[0]), ms[1..])
  }

  lemma {:induction false} FoldAppend(r: Rcv, a: seq<Msg>, b: seq<Msg>)
    ensures Fold(r, a + b) == Fold(Fold(r, a), b)
    decreases |a|
  {
    if a == [] {
      assert a + b == b;
    } else {
      assert (a + b)[0] == a[0] && (a + b)[1..] == a[1..] + b;
      FoldAppend(Update(r, a[0]), a[1..], b);
    }
  }

  lemma FoldOne(r: Rcv, m: Msg)
    ensures Fold(r, [m]) == Update(r, m)
  {
    assert [m][1..] == [];
  }

  /** What punpack answers for a whole file: an error, NULL, or the folded messages. */
  function Received(ms: seq<Msg>): Option<Rcv> {
    var r := Fold(FreshRcv, ms);
    if r.lastctx == CTX_INVALID then None else Some(r)
  }

  // ---------- the mutable record ----------

  class RcvMsg {
    var lastctx: uint32
    var failctx: uint32
    var fixtureFile: Option<cstr>
    var fixtureLine: int32
    var testFile: Option<cstr>
    var testLine: int32
    var text: Option<cstr>
    var usec: int32

    ghost function View(): Rcv
      reads this
    {
      Rcv(lastctx, failctx, fixtureFile, fixtureLine, testFile, testLine, text, usec)
    }

    constructor ()
      ensures View() == FreshRcv
    {
      lastctx, failctx := CTX_INVALID, CTX_INVALID;
      fixtureFile, fixtureLine := None, -1;
      testFile, testLine := None, -1;
      text, usec := None, -1;
    }

    method ResetFixture()
      modifies this
      ensures View() == old(View()).(fixtureFile := None, fixtureLine := -1)
    {
      fixtureLine := -1;
      fixtureFile := None;
    }

    method UpdateCtx(ctx: uint32)
      modifies this
      ensures View() == Update(old(View()), Ctx(ctx))
    {
      if lastctx != CTX_INVALID {
        ResetFixture();
      }
      lastctx := ctx;
    }

    /** The location moves as it does without a failure, whether or not there is one. */
    method UpdateLoc(file: cstr, line: int32)
      modifies this
      ensures View() == Update(old(View()).(failctx := CTX_INVALID), Loc(file, line)).(failctx := old(failctx))
    {
      if lastctx == CTX_TEST {
        testLine := line;
        testFile := Some(file);
      } else {
        fixtureLine := line;
        fixtureFile := Some(file);
      }
    }

    /** get_result: takes one message off the front of the buffer and returns its size. */
    method GetResult(buf: array<byte>) returns (r: Outcome<nat>)
      modifies this
      ensures Decode(buf[..]).Err? ==> r == Err(Decode(buf[..]).error) && View() == old(View())
      ensures Decode(buf[..]).Ok? ==>
                && r == Ok(Decode(buf[..]).value.size)
                && View() == Update(old(View()), Decode(buf[..]).value.msg)
    {
      var d := Upack(buf);
      if d.Err? {
        return Err(d.error);
      }
      match d.value.msg {
        case Ctx(c) =>
          UpdateCtx(c);
        case Loc(f, l) =>
          if failctx == CTX_INVALID {
            UpdateLoc(f, l);
          }
        case Fail(t) =>
          if text.None? {
            text := Some(t);
            failctx := lastctx;
          }
        case Duration(u) =>
          usec := u;
      }
      r := Ok(d.value.size);
    }
  }

  // ---------- the file ----------

  /** A FILE being read: its bytes and the position. */
  class File {
    var bytes: seq<byte>
    var pos: nat

    ghost predicate Valid()
      reads this
    {
      pos <= |bytes|
    }

    /** A file with these bytes, rewound. */
    constructor (contents: seq<byte>)
      ensures Valid() && bytes == contents && pos == 0
    {
      bytes, pos := contents, 0;
    }

    /** fread: as many of the wanted bytes as the file still has, put at `at`. */
    method Read(buf: array<byte>, at: nat, want: nat) returns (n: nat)
      requires Valid() && at + want <= buf.Length
      modifies this`pos, buf
      ensures Valid()
      ensures n == (if want <= |bytes| - old(pos) then want else |bytes| - old(pos))
      ensures pos == old(pos) + n
      ensures buf[..at] == old(buf[..at])
      ensures buf[at..at + n] == bytes[old(pos)..pos]
    {
      n := if want <= |bytes| - pos then want else |bytes| - pos;
      for i := 0 to n
        invariant pos == old(pos) && buf[..at] == old(buf[..at])
        invariant forall k :: at <= k < at + i ==> buf[k] == bytes[pos + k - at]
      {
        buf[at + i] := bytes[pos + i];
      }
      assert buf[at..at + n] == bytes[pos..pos + n];
      pos := pos + n;
    }
  }

  /** What ppack lets through: a message that packs and is not longer than the limit. */
  predicate Sendable(m: Msg, max: nat) {
    Packable(m) && WireSize(m) <= max
  }

  /** memmove(buf, buf + n, len): slides the unread bytes to the front. */
  method Slide(buf: array<byte>, n: nat, len: nat)
    requires n + len <= buf.Length
    modifies buf
    ensures buf[..len] == old(buf[n..n + len])
  {
    for i := 0 to len
      invariant forall k :: 0 <= k < i ==> buf[k] == old(buf[n + k])
      invariant forall k :: i <= k < buf.Length ==> buf[k] == old(buf[k])
    {
      buf[i] := buf[n + i];
    }
  }

  /** The first `nparse` bytes of the buffer are the file's next ones, and the
      window is full unless the file ended. `rest` is what is left to parse. */
  ghost predicate Window(buf: seq<byte>, nparse: nat, rest: seq<byte>) {
    && nparse <= |buf| && nparse <= |rest|
    && buf[..nparse] == rest[..nparse]
    && (nparse == |buf| || nparse == |rest|)
  }

  /** Whatever stale bytes lie behind its valid part, decoding the window is
      decoding the file. */
  lemma WindowAgrees(buf: seq<byte>, nparse: nat, rest: seq<byte>)
    requires Window(buf, nparse, rest)
    ensures
      var w, d := Decode(buf), Decode(rest);
      if w.Ok? && w.value.size <= nparse then d == w else d.Err? || d.value.size > |buf|
  {
    var w, d := Decode(buf), Decode(rest);
    if w.Ok? && w.value.size <= nparse {
      var n := w.value.size;
      assert buf[..n] == buf[..nparse][..n] == rest[..n];
      DecodeIsLocal(buf, rest);
    } else if d.Ok? && d.value.size <= |buf| {
      var n := d.value.size;
      assert buf[..n] == buf[..nparse][..n] == rest[..n];
      DecodeIsLocal(rest, buf);
    }
  }

  /** Parsing and folding in one go: what the bytes `s` still add to `r`. */
  function Answer(s: seq<byte>, r: Rcv, cap: nat): Option<Rcv>
    decreases |s|
  {
    if s == [] then
      Some(r)
    else
      var d := Decode(s);
      if d.Err? || d.value.size > cap then
        None
      else
        Answer(s[d.value.size..], Update(r, d.value.msg), cap)
  }

  lemma {:induction false} AnswerIsFold(s: seq<byte>, r: Rcv, cap: nat)
    ensures Answer(s, r, cap) ==
            match ParseAll(s, cap) case None => None case Some(ms) => Some(Fold(r, ms))
    decreases |s|
  {
    if s != [] && Decode(s).Ok? && Decode(s).value.size <= cap {
      var d := Decode(s).value;
      var tail := ParseAll(s[d.size..], cap);
      AnswerIsFold(s[d.size..], Update(r, d.msg), cap);
      if tail.Some? {
        var ms := [d.msg] + tail.value;
        assert ms[1..] == tail.value;
        assert Fold(r, ms) == Fold(Update(r, d.msg), tail.value);
      }
    }
  }

  lemma WindowStep(r: Rcv, buf: seq<byte>, nparse: nat, rest: seq<byte>)
    requires Window(buf, nparse, rest) && nparse > 0
    ensures
      var w := Decode(buf);
      Answer(rest, r, |buf|) ==
        if w.Ok? && w.value.size <= nparse
        then Answer(rest[w.value.size..], Update(r, w.value.msg), |buf|)
        else None
  {
    WindowAgrees(buf, nparse, rest);
  }

  /** Parses the message at the front of the window, if there is a whole one. */
  method ParseFront(buf: array<byte>, rmsg: RcvMsg, nparse: nat, ghost rest: seq<byte>)
    returns (r: Outcome<nat>)
    requires Window(buf[..], nparse, rest) && nparse > 0
    modifies rmsg
    ensures r.Ok? ==> 0 < r.value <= nparse
    ensures Answer(rest, old(rmsg.View()), buf.Length) ==
            if r.Ok? then Answer(rest[r.value..], rmsg.View(), buf.Length) else None
  {
    WindowStep(rmsg.View(), buf[..], nparse, rest);
    var n :- rmsg.GetResult(buf);
    if nparse < n {
      return Err(Overrun);
    }
    r := Ok(n);
  }

  /** Drops the `n` bytes just parsed and, unless the end was seen, reads as many more. */
  method Advance(f: File, buf: array<byte>, nparse: nat, n: nat, nread: nat, ghost rest: seq<byte>)
    returns (nparse': nat, nread': nat)
    requires f.Valid() && 0 < n <= nparse
    requires Window(buf[..], nparse, rest) && rest[nparse..] == f.bytes[f.pos..]
    requires nread == 0 ==> nparse == |rest|
    modifies f`pos, buf
    ensures f.Valid()
    ensures Window(buf[..], nparse', rest[n..]) && rest[n..][nparse'..] == f.bytes[f.pos..]
    ensures nread' == 0 ==> nparse' == |rest| - n
  {
    nparse', nread' := nparse - n, nread;
    assert buf[n..nparse] == rest[n..nparse] by {
      assert buf[n..nparse] == buf[..][..nparse][n..];
      assert rest[n..nparse] == rest[..nparse][n..];
    }
    Slide(buf, n, nparse');
    ghost var left := rest[n..];
    assert buf[..nparse'] == left[..nparse'];
    assert left[nparse'..] == rest[nparse..];
    if nread > 0 {
      ghost var unread := f.bytes[f.pos..];
      nread' := f.Read(buf, nparse', n);
      ReadMore(left, nparse', unread, nread', buf[..nparse' + nread']);
      assert unread[nread'..] == f.bytes[f.pos..];
      nparse' := nparse' + nread';
    }
    assert buf[..][..nparse'] == buf[..nparse'];
  }

  lemma ReadMore(left: seq<byte>, have: nat, unread: seq<byte>, n: nat, got: seq<byte>)
    requires have <= |left| && left[have..] == unread && n <= |unread|
    requires |got| == have + n && got[..have] == left[..have] && got[have..] == unread[..n]
    ensures got == left[..have + n] && left[have + n..] == unread[n..]
  {
    assert left == left[..have] + unread;
  }

  /** The loop of punpack: parses the window empty, refilling it as it goes. */
  method Drain(f: File, buf: array<byte>, rmsg: RcvMsg, nread0: nat, ghost all: seq<byte>) returns (r: Outcome<()>)
    requires f.Valid()
    requires Window(buf[..], nread0, all) && all[nread0..] == f.bytes[f.pos..]
    requires nread0 == 0 ==> all == []
    modifies f`pos, buf, rmsg
    ensures f.Valid()
    ensures Answer(all, old(rmsg.View()), buf.Length) == if r.Ok? then Some(rmsg.View()) else None
  {
    var nread, nparse := nread0, nread0;
    ghost var rest := all;
    ghost var goal := Answer(all, rmsg.View(), buf.Length);
    while nparse > 0
      invariant f.Valid()
      invariant Window(buf[..], nparse, rest) && rest[nparse..] == f.bytes[f.pos..]
      invariant nread == 0 ==> nparse == |rest|
      invariant nparse == 0 ==> rest == []
      invariant Answer(rest, rmsg.View(), buf.Length) == goal
      decreases |rest|
    {
      var n :- ParseFront(buf, rmsg, nparse, rest);
      nparse, nread := Advance(f, buf, nparse, n, nread, rest);
      rest := rest[n..];
    }
    r := Ok(());
  }

  /** punpack: reads the whole file through a window of twice the maximal message
      size. For every file, well formed or not, it gives up exactly when the
      simple parse of the whole file does, and otherwise folds exactly the
      messages of that parse; NULL stands for a stream that set no context. */
  method Punpack(f: File, max: nat) returns (r: Outcome<RcvMsg?>)
    requires f.Valid() && 0 < max
    modifies f`pos
    ensures f.Valid()
    ensures
      var ms := ParseAll(f.bytes[old(f.pos)..], 2 * max);
      && (r.Err? <==> ms.None?)
      && (ms.Some? ==>
            match Received(ms.value)
            case None => r.value == null
            case Some(rcv) => r.value != null && fresh(r.value) && r.value.View() == rcv)
  {
    var rmsg := new RcvMsg();
    var buf := new byte[2 * max];
    ghost var all := f.bytes[f.pos..];
    AnswerIsFold(all, rmsg.View(), 2 * max);
    var nread := f.Read(buf, 0, 2 * max);
    assert buf[0..nread] == buf[..][..nread] == all[..nread];
    assert all[nread..] == f.bytes[f.pos..];
    var _ :- Drain(f, buf, rmsg, nread, all);
    if rmsg.lastctx == CTX_INVALID {
      return Ok(null);
    }
    r := Ok(rmsg);
  }
}
