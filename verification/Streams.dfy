/** What whole message streams mean: which failure and which location survive,
    and which leftovers of an earlier test are harmless. */
module Streams {
  import opened Base
  import opened Codec
  import opened Receive

  predicate NoFail(ms: seq<Msg>) {
    forall i :: 0 <= i < |ms| ==> !ms[i].Fail?
  }

  predicate NoCtx(ms: seq<Msg>) {
    forall i :: 0 <= i < |ms| ==> !ms[i].Ctx?
  }

  /** Every CTX message names a context. */
  predicate Contexts(ms: seq<Msg>) {
    forall i :: 0 <= i < |ms| && ms[i].Ctx? ==> ms[i].ctx != CTX_INVALID
  }

  lemma {:induction false} ContextOnceSet(r: Rcv, ms: seq<Msg>)
    requires Contexts(ms)
    ensures Fold(r, ms).lastctx == CTX_INVALID <==> r.lastctx == CTX_INVALID && NoCtx(ms)
    decreases |ms|
  {
    if ms != [] {
      ContextOnceSet(Update(r, ms[0]), ms[1..]);
      assert NoCtx(ms) <==> !ms[0].Ctx? && NoCtx(ms[1..]) by {
        assert ms == [ms[0]] + ms[1..];
      }
    }
  }

  /** punpack answers NULL exactly when no context was ever sent. */
  lemma NullIffNoContext(ms: seq<Msg>)
    requires Contexts(ms)
    ensures Received(ms).None? <==> NoCtx(ms)
  {
    ContextOnceSet(FreshRcv, ms);
  }

  /** Without a FAIL nothing is recorded as failed. */
  lemma {:induction false} QuietWithoutFail(r: Rcv, ms: seq<Msg>)
    requires NoFail(ms)
    ensures Fold(r, ms).text == r.text && Fold(r, ms).failctx == r.failctx
    decreases |ms|
  {
    if ms != [] {
      QuietWithoutFail(Update(r, ms[0]), ms[1..]);
    }
  }

  /** After a failure in a known context only a later CTX changes anything that is
      reported, and all it does is forget the fixture's location. */
  lemma {:induction false} FrozenAfterFail(r: Rcv, ms: seq<Msg>)
    requires r.text.Some? && r.failctx != CTX_INVALID && r.lastctx != CTX_INVALID
    requires Contexts(ms)
    ensures
      var s := Fold(r, ms);
      && s.text == r.text && s.failctx == r.failctx
      && s.testFile == r.testFile && s.testLine == r.testLine
      && s.fixtureFile == (if NoCtx(ms) then r.fixtureFile else None)
      && s.fixtureLine == (if NoCtx(ms) then r.fixtureLine else -1)
    decreases |ms|
  {
    if ms != [] {
      FrozenAfterFail(Update(r, ms[0]), ms[1..]);
      assert NoCtx(ms) <==> !ms[0].Ctx? && NoCtx(ms[1..]) by {
        assert ms == [ms[0]] + ms[1..];
      }
    }
  }

  /** The first failure wins, whatever is sent after it: its text and the context
      it happened in survive, and so does the location sent just before it, for a
      failing test body always and for a failing fixture if and only if no
      context was announced afterwards. */
  lemma FirstFailureSurvives(before: seq<Msg>, file: cstr, line: int32, text: cstr, after: seq<Msg>)
    requires NoFail(before) && Contexts(before) && Contexts(after) && !NoCtx(before)
    ensures
      var ctx := Fold(FreshRcv, before).lastctx;
      var r := Fold(FreshRcv, before + [Loc(file, line), Fail(text)] + after);
      && r.text == Some(text) && r.failctx == ctx
      && (ctx == CTX_TEST ==> r.testFile == Some(file) && r.testLine == line)
      && (ctx != CTX_TEST ==>
            (r.fixtureFile == Some(file) && r.fixtureLine == line <==> NoCtx(after)))
  {
    var a := Fold(FreshRcv, before);
    QuietWithoutFail(FreshRcv, before);
    ContextOnceSet(FreshRcv, before);
    var pair := [Loc(file, line), Fail(text)];
    FoldAppend(FreshRcv, before, pair);
    FoldAppend(FreshRcv, before + pair, after);
    assert pair[1..] == [Fail(text)];
    var b := Update(Update(a, Loc(file, line)), Fail(text));
    assert Fold(a, pair) == Fold(Update(a, Loc(file, line)), pair[1..]) == b;
    FrozenAfterFail(b, after);
  }

  // ---------- leftovers ----------

  /** What unchecked teardowns leave unread in the pipe: teardown contexts,
      locations and, when one failed outside a child process, a failure. */
  predicate Leftover(ms: seq<Msg>) {
    && (ms != [] ==> ms[0].Ctx?)
    && (forall i :: 0 <= i < |ms| ==>
          ms[i] == Ctx(CTX_TEARDOWN) || ms[i].Loc? || ms[i].Fail?)
  }

  lemma {:induction false} LeftoverState(r: Rcv, ms: seq<Msg>)
    requires r.lastctx == CTX_TEARDOWN
    requires forall i :: 0 <= i < |ms| ==> ms[i] == Ctx(CTX_TEARDOWN) || ms[i].Loc? || ms[i].Fail?
    ensures
      var s := Fold(r, ms);
      && s.lastctx == CTX_TEARDOWN && s.testFile == r.testFile && s.testLine == r.testLine && s.usec == r.usec
      && (r.text.Some? || !NoFail(ms) ==> s.text.Some?)
    decreases |ms|
  {
    if ms != [] {
      LeftoverState(Update(r, ms[0]), ms[1..]);
      assert ms == [ms[0]] + ms[1..];
    }
  }

  lemma LeftoverThenContext(left: seq<Msg>, s: seq<Msg>)
    requires Leftover(left) && NoFail(left)
    requires s != [] && s[0].Ctx?
    ensures Fold(FreshRcv, left + s) == Fold(FreshRcv, s)
  {
    FoldAppend(FreshRcv, left, s);
    if left != [] {
      QuietWithoutFail(FreshRcv, left);
      LeftoverState(Update(FreshRcv, left[0]), left[1..]);
      var r := Fold(FreshRcv, left);
      assert Update(r, s[0]) == Update(FreshRcv, s[0]);
    }
  }

  /** Leftovers change no later result if and only if they hold no failure: then
      every stream that announces a context first is received as if it were
      alone, and otherwise already an empty passing test is not. */
  lemma LeftoversHarmlessIff(left: seq<Msg>)
    requires Leftover(left)
    ensures (forall s: seq<Msg> :: s != [] && s[0].Ctx? ==> Fold(FreshRcv, left + s) == Fold(FreshRcv, s))
            <==> NoFail(left)
  {
    if NoFail(left) {
      forall s: seq<Msg> | s != [] && s[0].Ctx?
        ensures Fold(FreshRcv, left + s) == Fold(FreshRcv, s)
      {
        LeftoverThenContext(left, s);
      }
    } else {
      var s := [Ctx(CTX_TEST)];
      FoldAppend(FreshRcv, left, s);
      LeftoverState(Update(FreshRcv, left[0]), left[1..]);
      assert NoFail(left[1..]) ==> NoFail(left) by {
        assert left == [left[0]] + left[1..];
      }
      assert Fold(FreshRcv, left).text.Some?;
      assert Fold(FreshRcv, s).text.None?;
      assert Fold(FreshRcv, left + s) != Fold(FreshRcv, s);
    }
  }
}
