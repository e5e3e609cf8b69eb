/** Without a child process: what the test functions did determines what the runner
    reports, and whether it survives. */
module Reports {
  import opened Base
  import opened Codec
  import opened Receive
  import opened Streams
  import opened Results
  import opened TestRun
  import opened Expectations
  import Forecast

  // ---------- the record along the way ----------

  function Record(w: World): Rcv {
    Fold(FreshRcv, w.pipe)
  }

  /** Nothing failed yet and a context is known. */
  predicate Sound(r: Rcv) {
    r.text.None? && r.failctx == CTX_INVALID && r.lastctx != CTX_INVALID
  }

  /** The location the record keeps after the points `ps`. */
  function Located(r: Rcv, ps: seq<Point>): Rcv {
    if ps == [] then r
    else
      var p := ps[|ps| - 1];
      if r.lastctx == CTX_TEST then r.(testFile := Some(p.file), testLine := p.line)
      else r.(fixtureFile := Some(p.file), fixtureLine := p.line)
  }

  function Ended(r: Rcv, end: End): Rcv {
    if end.Assert? then r.(text := Some(end.text), failctx := r.lastctx) else r
  }

  lemma LocatedTwice(r: Rcv, a: seq<Point>, b: seq<Point>)
    ensures Located(Located(r, a), b) == Located(r, a + b)
  {
    if b == [] {
      assert a + b == a;
    } else {
      assert (a + b)[|a + b| - 1] == b[|b| - 1];
    }
  }

  lemma {:induction false} FoldLocs(r: Rcv, ps: seq<Point>)
    requires r.failctx == CTX_INVALID
    ensures Fold(r, Locs(ps)) == Located(r, ps)
    decreases |ps|
  {
    if ps != [] {
      var m := LocOf(ps[0]);
      FoldAppend(r, [m], Locs(ps[1..]));
      FoldOne(r, m);
      FoldLocs(Update(r, m), ps[1..]);
      assert Update(r, m) == Located(r, [ps[0]]);
      LocatedTwice(r, [ps[0]], ps[1..]);
      assert [ps[0]] + ps[1..] == ps;
    }
  }

  lemma FoldPair(r: Rcv, a: Msg, b: Msg)
    ensures Fold(r, [a, b]) == Update(Update(r, a), b)
  {
    assert [a, b] == [a] + [b];
    FoldAppend(r, [a], [b]);
    FoldOne(r, a);
    FoldOne(Update(r, a), b);
  }

  lemma FoldSent(r: Rcv, e: Act)
    requires Sound(r)
    ensures Fold(r, Sent(e)) == Ended(Located(r, PointsOf(e)), e.end)
  {
    FoldLocs(r, e.points);
    if e.end.Assert? {
      var pair := [LocOf(e.end.at), Fail(e.end.text)];
      FoldAppend(r, Locs(e.points), pair);
      FoldPair(Located(r, e.points), pair[0], pair[1]);
      LocatedTwice(r, e.points, [e.end.at]);
    } else {
      assert Sent(e) == Locs(e.points);
      assert PointsOf(e) == e.points;
    }
  }

  lemma SayRecord(w: World, env: Env, m: Msg)
    requires Sendable(m, env.max)
    ensures Say(w, env, m).Live? && Record(Say(w, env, m).w) == Update(Record(w), m)
  {
    FoldAppend(FreshRcv, w.pipe, [m]);
    FoldOne(Record(w), m);
  }

  lemma PerformRecord(w: World, env: Env, call: Call, forked: bool)
    requires Sound(Record(w))
    ensures
      var e := env.did(w.next);
      Record(Perform(w, env, call, forked).w) == Ended(Located(Record(w), PointsOf(e)), e.end)
  {
    var e := env.did(w.next);
    FoldAppend(FreshRcv, w.pipe, Sent(e));
    FoldSent(Record(w), e);
  }

  // ---------- leftovers at the start ----------

  /** The pipe holds at most what unfailing unchecked teardowns left there. */
  predicate Harmless(w: World) {
    Leftover(w.pipe) && NoFail(w.pipe)
  }

  lemma FirstContext(w: World, env: Env, ctx: uint32)
    requires Harmless(w) && Sendable(Ctx(ctx), env.max)
    ensures Record(Say(w, env, Ctx(ctx)).w) == FreshRcv.(lastctx := ctx)
  {
    LeftoverThenContext(w.pipe, [Ctx(ctx)]);
    FoldOne(FreshRcv, Ctx(ctx));
  }

  /** The pipe holds nothing that could spoil the next result. */
  ghost predicate Good(w: World, env: Env) {
    Harmless(w) && AllWithin(w.pipe, env.max)
  }

  /** A teardown's failure is in the pipe. */
  predicate Marred(w: World, text: cstr) {
    var r := Record(w);
    r.text == Some(text) && r.failctx == CTX_TEARDOWN && r.lastctx != CTX_INVALID
  }

  /** ... and its location is gone. */
  predicate Wiped(w: World, text: cstr) {
    Marred(w, text) && Record(w).fixtureFile.None? && Record(w).fixtureLine == -1
  }

  /** The pipe is as the mood says. */
  ghost predicate Bears(w: World, env: Env, mood: Mood) {
    match mood
    case Clear => Good(w, env)
    case Tainted(text) => !env.fork && Marred(w, text)
  }

  /** Whatever is sent, an old failure stays; a context wipes its location. */
  lemma MarredStays(w: World, w': World, ms: seq<Msg>, text: cstr)
    requires Marred(w, text) && w'.pipe == w.pipe + ms && Contexts(ms)
    ensures Marred(w', text) && (Wiped(w, text) || !NoCtx(ms) ==> Wiped(w', text))
  {
    FoldAppend(FreshRcv, w.pipe, ms);
    FrozenAfterFail(Record(w), ms);
    ContextOnceSet(Record(w), ms);
  }

  // ---------- foretelling ----------

  /** Only the message pipe, the call counter and the call history moved. */
  predicate OnlyRan(w: World, w': World) {
    w' == w.(pipe := w'.pipe, next := w'.next, calls := w'.calls)
  }

  /** A piece of a run goes exactly as foretold. */
  ghost predicate Foretold<T>(w: World, env: Env, f: Flow<T>, o: Outlook<T>) {
    && (f.Live? <==> o.Goes?)
    && (o.Goes? ==> f.value == o.value && OnlyRan(w, f.w) && f.w.next == o.k && Bears(f.w, env, o.mood))
  }

  // ---------- setups ----------

  /** A setup outside a child passes or is blamed for its own assertion, if it comes back. */
  predicate SetupReported(w: World, env: Env, f: Flow<TestResult>, tcname: string, tname: string) {
    var e := env.did(w.next);
    && (f.Live? <==> ComesBack(e.end))
    && (f.Live? ==>
          && f.w == w.(pipe := [], next := w.next + 1, calls := f.w.calls)
          && (e.end.Assert? ==> f.value == Blame(CTX_SETUP, e.end, tcname, tname, 0, -1))
          && (e.end.Return? ==> f.value.rtype == Pass))
  }

  lemma SetupStep(w: World, env: Env, call: Call, tcname: string, tname: string)
    requires Harmless(w) && Speaks(env)
    ensures SetupReported(w, env, NoforkSetup(w, env, call, tcname, tname), tcname, tname)
  {
    var s := Say(w, env, Ctx(CTX_SETUP));
    FirstContext(w, env, CTX_SETUP);
    PerformRecord(s.w, env, call, false);
    var e := env.did(w.next);
    if e.end.Assert? {
      assert PointsOf(e)[|PointsOf(e)| - 1] == e.end.at;
    }
  }

  /** A setup that finds an old failure in the pipe is blamed for it. */
  lemma SetupStained(w: World, env: Env, call: Call, tcname: string, tname: string, text: cstr)
    requires Marred(w, text) && Speaks(env)
    ensures
      var f, e := NoforkSetup(w, env, call, tcname, tname), env.did(w.next);
      && (f.Live? <==> ComesBack(e.end))
      && (f.Live? ==>
            && f.w == w.(pipe := [], next := w.next + 1, calls := f.w.calls)
            && f.value == Stained(text, tcname, tname, 0, -1))
  {
    var ms := [Ctx(CTX_SETUP)] + Sent(env.did(w.next));
    var w1 := Say(w, env, Ctx(CTX_SETUP)).w;
    var w2 := Perform(w1, env, call, false).w;
    ConcatAssoc(w.pipe, [Ctx(CTX_SETUP)], Sent(env.did(w.next)));
    assert ms[0] == Ctx(CTX_SETUP);
    MarredStays(w, w2, ms, text);
  }

  function ThenSetups(one: Flow<TestResult>, rest: Flow<Option<TestResult>>): Flow<Option<TestResult>> {
    if one.Dead? then one.PropagateFailure()
    else if one.value.rtype != Pass then Live(one.w, Some(one.value)) else rest
  }

  lemma SetupsCons(w: World, env: Env, n: nat, one: Flow<TestResult>, rest: Flow<Option<TestResult>>,
                   tcname: string, tname: string)
    requires Speaks(env) && SetupReported(w, env, one, tcname, tname)
    requires one.Live? ==> Foretold(one.w, env, rest, Forecast.Setups(env, n, w.next + 1, Clear, tcname, tname))
    ensures Foretold(w, env, ThenSetups(one, rest), Forecast.Setups(env, n + 1, w.next, Clear, tcname, tname))
  {
  }

  lemma {:induction false} ClearSetupsForetold(
    w: World, env: Env, fs: seq<Fixture>, role: Role, tcname: string, tname: string)
    requires Good(w, env) && Speaks(env)
    ensures Foretold(w, env, NoforkSetups(w, env, fs, role, tcname, tname),
                     Forecast.Setups(env, |fs|, w.next, Clear, tcname, tname))
    decreases |fs|
  {
    if fs != [] {
      var one := NoforkSetup(w, env, Call(role, fs[0]), tcname, tname);
      var rest := NoforkSetups(one.w, env, fs[1..], role, tcname, tname);
      SetupStep(w, env, Call(role, fs[0]), tcname, tname);
      if one.Live? {
        ClearSetupsForetold(one.w, env, fs[1..], role, tcname, tname);
      }
      SetupsCons(w, env, |fs| - 1, one, rest, tcname, tname);
      assert NoforkSetups(w, env, fs, role, tcname, tname) == ThenSetups(one, rest);
    }
  }

  /** Setups in the runner's process, for every script and whatever is in the pipe: they
      stop at the first failure, which is reported with its own text and location. */
  lemma NoforkSetupsReport(
    w: World, env: Env, fs: seq<Fixture>, role: Role, tcname: string, tname: string, mood: Mood)
    requires Bears(w, env, mood)
    ensures Foretold(w, env, NoforkSetups(w, env, fs, role, tcname, tname),
                     Forecast.Setups(env, |fs|, w.next, mood, tcname, tname))
  {
    if fs != [] && Speaks(env) {
      if mood.Tainted? {
        SetupStained(w, env, Call(role, fs[0]), tcname, tname, mood.text);
      } else {
        ClearSetupsForetold(w, env, fs, role, tcname, tname);
      }
    }
  }

  // ---------- teardowns ----------

  /** How a call of user code comes back. */
  predicate CameBack(end: End, forked: bool, f: Flow<bool>) {
    && (f.Live? <==> end.Return? || (end.Assert? && !forked))
    && (f.Live? ==> (f.value <==> end.Return?))
    && (f.Dead? ==> f.how == EndStatus(end) && (f.alarm <==> end.Die? && end.alarm))
  }

  function TornDown(r: Rcv, e: Act): Rcv {
    Ended(Located(Update(r, Ctx(CTX_TEARDOWN)), PointsOf(e)), e.end)
  }

  /** A sound record meets one teardown. */
  predicate TeardownMet(w: World, env: Env, f: Flow<bool>, forked: bool) {
    && OnlyRan(w, f.w)
    && (Sendable(Ctx(CTX_TEARDOWN), env.max) ==>
          && CameBack(env.did(w.next).end, forked, f)
          && f.w.next == w.next + 1
          && Record(f.w) == TornDown(Record(w), env.did(w.next))
          && (f.Live? && f.value ==> Sound(Record(f.w))))
    && (!Sendable(Ctx(CTX_TEARDOWN), env.max) ==> f.Dead?)
  }

  lemma OneTeardownRecord(w: World, env: Env, call: Call, forked: bool)
    requires Sound(Record(w))
    ensures TeardownMet(w, env, OneTeardown(w, env, call, forked), forked)
  {
    if Sendable(Ctx(CTX_TEARDOWN), env.max) {
      SayRecord(w, env, Ctx(CTX_TEARDOWN));
      var w1 := Say(w, env, Ctx(CTX_TEARDOWN)).w;
      PerformRecord(w1, env, call, forked);
      TornDownFails(Record(w), env.did(w.next));
    }
  }

  /** Teardowns outside a child: the first failure is recorded with its own text
      and location; the test's location is kept. */
  predicate TeardownsRecorded(w: World, env: Env, n: nat, f: Flow<bool>) {
    var r, r', j := Record(w), Record(f.w), FirstStop(env, w.next, n);
    f.Live? ==>
      && r'.testFile == r.testFile && r'.testLine == r.testLine && r'.usec == r.usec && r'.lastctx != CTX_INVALID
      && (j.None? ==> Sound(r') && r'.lastctx == if n == 0 then r.lastctx else CTX_TEARDOWN)
      && (j.Some? ==>
            var end := env.did(w.next + j.value).end;
            && end.Assert?
            && r'.text == Some(end.text) && r'.failctx == CTX_TEARDOWN
            && r'.fixtureFile == Some(end.at.file) && r'.fixtureLine == end.at.line)
  }

  function ThenTeardowns(one: Flow<bool>, rest: Flow<bool>): Flow<bool> {
    if one.Dead? then one.PropagateFailure() else if one.value then rest else Live(one.w, true)
  }

  lemma TornDownFails(r: Rcv, e: Act)
    requires Sound(r)
    ensures
      var s := TornDown(r, e);
      && s.testFile == r.testFile && s.testLine == r.testLine && s.usec == r.usec
      && (!e.end.Assert? ==> Sound(s) && s.lastctx == CTX_TEARDOWN)
      && (e.end.Assert? ==>
            && s.text == Some(e.end.text) && s.failctx == CTX_TEARDOWN
            && s.fixtureFile == Some(e.end.at.file) && s.fixtureLine == e.end.at.line)
  {
    if e.end.Assert? {
      assert PointsOf(e)[|PointsOf(e)| - 1] == e.end.at;
    }
  }

  lemma TeardownsUnfold(w: World, env: Env, fs: seq<Fixture>, role: Role, forked: bool)
    requires fs != []
    ensures
      var one := OneTeardown(w, env, Call(role, fs[0]), forked);
      Teardowns(w, env, fs, role, forked) == ThenTeardowns(one, Teardowns(one.w, env, fs[1..], role, forked))
  {
  }

  lemma OneTeardownSound(w: World, env: Env, call: Call)
    requires Sound(Record(w))
    ensures
      var one := OneTeardown(w, env, call, false);
      one.Live? && one.value ==> Sound(Record(one.w))
  {
    OneTeardownRecord(w, env, call, false);
    TornDownFails(Record(w), env.did(w.next));
  }

  lemma TeardownsCons(w: World, env: Env, n: nat, one: Flow<bool>, rest: Flow<bool>)
    requires Sound(Record(w)) && TeardownMet(w, env, one, false)
    requires one.Live? && one.value ==> TeardownsRecorded(one.w, env, n, rest)
    ensures TeardownsRecorded(w, env, n + 1, ThenTeardowns(one, rest))
  {
    TornDownFails(Record(w), env.did(w.next));
  }

  lemma TeardownsStep(w: World, env: Env, fs: seq<Fixture>, role: Role, one: Flow<bool>)
    requires Sound(Record(w)) && fs != [] && one == OneTeardown(w, env, Call(role, fs[0]), false)
    requires one.Live? && one.value ==>
               TeardownsRecorded(one.w, env, |fs| - 1, Teardowns(one.w, env, fs[1..], role, false))
    ensures TeardownsRecorded(w, env, |fs|, Teardowns(w, env, fs, role, false))
  {
    OneTeardownRecord(w, env, Call(role, fs[0]), false);
    TeardownsCons(w, env, |fs| - 1, one, Teardowns(one.w, env, fs[1..], role, false));
    TeardownsUnfold(w, env, fs, role, false);
  }

  lemma {:induction false} NoforkTeardownsRecord(w: World, env: Env, fs: seq<Fixture>, role: Role)
    requires Sound(Record(w))
    ensures TeardownsRecorded(w, env, |fs|, Teardowns(w, env, fs, role, false))
    decreases |fs|
  {
    if fs != [] {
      var one := OneTeardown(w, env, Call(role, fs[0]), false);
      if one.Live? && one.value {
        OneTeardownSound(w, env, Call(role, fs[0]));
        NoforkTeardownsRecord(one.w, env, fs[1..], role);
      }
      TeardownsStep(w, env, fs, role, one);
    }
  }

  /** Which teardowns run and whether they come back does not depend on the pipe. */
  predicate Went(w: World, env: Env, n: nat, f: Flow<bool>, forked: bool) {
    && OnlyRan(w, f.w)
    && (f.Live? <==> Forecast.TeardownsComeBack(env, n, w.next, forked))
    && (n == 0 || Speaks(env) ==> f.w.next == w.next + CallsMade(env, w.next, n))
    && (n == 0 ==> f.w == w)
  }

  lemma WentCons(w: World, env: Env, n: nat, call: Call, one: Flow<bool>, rest: Flow<bool>, forked: bool)
    requires one == OneTeardown(w, env, call, forked)
    requires one.Live? && one.value ==> Went(one.w, env, n, rest, forked)
    ensures Went(w, env, n + 1, ThenTeardowns(one, rest), forked)
  {
  }

  lemma {:induction false} TeardownsGo(w: World, env: Env, fs: seq<Fixture>, role: Role, forked: bool)
    ensures Went(w, env, |fs|, Teardowns(w, env, fs, role, forked), forked)
    decreases |fs|
  {
    if fs != [] {
      var one := OneTeardown(w, env, Call(role, fs[0]), forked);
      if one.Live? && one.value {
        TeardownsGo(one.w, env, fs[1..], role, forked);
      }
      WentCons(w, env, |fs| - 1, Call(role, fs[0]), one, Teardowns(one.w, env, fs[1..], role, forked), forked);
      TeardownsUnfold(w, env, fs, role, forked);
    }
  }

  /** Teardowns only add messages, and announce a context first. */
  lemma {:induction false} TeardownsSend(w: World, env: Env, fs: seq<Fixture>, role: Role, forked: bool)
    returns (ms: seq<Msg>)
    ensures Teardowns(w, env, fs, role, forked).w.pipe == w.pipe + ms && Contexts(ms)
    decreases |fs|
  {
    ms := [];
    assert w.pipe + [] == w.pipe;
    if fs != [] && Speaks(env) {
      var one := OneTeardown(w, env, Call(role, fs[0]), forked);
      ms := [Ctx(CTX_TEARDOWN)] + Sent(env.did(w.next));
      ConcatAssoc(w.pipe, [Ctx(CTX_TEARDOWN)], Sent(env.did(w.next)));
      if one.Live? && one.value {
        var more := TeardownsSend(one.w, env, fs[1..], role, forked);
        ConcatAssoc(w.pipe, ms, more);
        ms := ms + more;
      }
    }
  }

  /** What a failed test body left in the record is what every later record says. */
  predicate StillBlamed(r: Rcv, r': Rcv) {
    && r'.text == r.text && r'.failctx == r.failctx && r'.lastctx != CTX_INVALID
    && r'.testFile == r.testFile && r'.testLine == r.testLine
  }

  lemma BlamedStays(r: Rcv, ms: seq<Msg>)
    requires r.text.Some? && r.failctx != CTX_INVALID && r.lastctx != CTX_INVALID && Contexts(ms)
    ensures StillBlamed(r, Fold(r, ms))
  {
    FrozenAfterFail(r, ms);
    ContextOnceSet(r, ms);
  }

  lemma TeardownsBlamed(w: World, env: Env, fs: seq<Fixture>, role: Role, forked: bool)
    requires Record(w).text.Some? && Record(w).failctx != CTX_INVALID && Record(w).lastctx != CTX_INVALID
    ensures StillBlamed(Record(w), Record(Teardowns(w, env, fs, role, forked).w))
  {
    var ms := TeardownsSend(w, env, fs, role, forked);
    FoldAppend(FreshRcv, w.pipe, ms);
    BlamedStays(Record(w), ms);
  }

  // ---------- the test itself ----------

  const InTest: Rcv := FreshRcv.(lastctx := CTX_TEST)

  /** Announcing the test wipes the slate. */
  ghost predicate Ready(w: World, env: Env) {
    Sendable(Ctx(CTX_TEST), env.max) ==> Record(Say(w, env, Ctx(CTX_TEST)).w) == InTest
  }

  predicate BodyRecorded(w: World, env: Env, tf: TestFun, f: Flow<bool>, forked: bool) {
    var e := env.did(w.next);
    && OnlyRan(w, f.w)
    && (!Sendable(Ctx(CTX_TEST), env.max) ==> f.Dead?)
    && (Sendable(Ctx(CTX_TEST), env.max) ==>
          && (!Sends(tf.at, env.max) ==>
                f.Dead? && f.how == Exited(2) && !f.alarm && Record(f.w) == InTest)
          && (Sends(tf.at, env.max) ==>
                && CameBack(e.end, forked, f)
                && f.w.next == w.next + 1
                && Record(f.w) == Ended(Located(InTest, [tf.at] + PointsOf(e)), e.end)))
  }

  lemma BodyRecord(w: World, env: Env, tf: TestFun, i: int, forked: bool)
    requires Ready(w, env)
    ensures BodyRecorded(w, env, tf, TestBody(w, env, tf, i, forked), forked)
  {
    var w1 := Say(w, env, Ctx(CTX_TEST)).w;
    if Sendable(Ctx(CTX_TEST), env.max) && Sends(tf.at, env.max) {
      SayRecord(w1, env, LocOf(tf.at));
      var w2 := Say(w1, env, LocOf(tf.at)).w;
      assert Record(w2) == Located(InTest, [tf.at]);
      PerformRecord(w2, env, Run(tf.fun, i), forked);
      LocatedTwice(InTest, [tf.at], PointsOf(env.did(w.next)));
    }
  }

  // ---------- the report of a test without a child ----------

  lemma ReadyWhenHarmless(w: World, env: Env)
    requires Harmless(w)
    ensures Ready(w, env)
  {
    if Sendable(Ctx(CTX_TEST), env.max) {
      FirstContext(w, env, CTX_TEST);
    }
  }

  /** The teardowns after a test that failed, and after one that did not. */
  lemma BodyThenTeardowns(w: World, env: Env, tc: Case, tf: TestFun, i: int)
    requires Harmless(w) && TestBody(w, env, tf, i, false).Live?
    ensures
      var f := TestBody(w, env, tf, i, false);
      var b := env.did(w.next);
      var seen := Located(InTest, [tf.at] + PointsOf(b));
      var t := Teardowns(f.w, env, tc.chTeardowns, CheckedTeardown, false);
      && ComesBack(b.end) && f.w.next == w.next + 1 && Record(f.w) == Ended(seen, b.end)
      && (b.end.Assert? ==> StillBlamed(Record(f.w), Record(t.w)))
      && (b.end.Return? ==> TeardownsRecorded(f.w, env, |tc.chTeardowns|, t))
  {
    ReadyWhenHarmless(w, env);
    BodyRecord(w, env, tf, i, false);
    var f := TestBody(w, env, tf, i, false);
    LocatedTest([tf.at] + PointsOf(env.did(w.next)));
    if env.did(w.next).end.Assert? {
      TeardownsBlamed(f.w, env, tc.chTeardowns, CheckedTeardown, false);
    } else {
      NoforkTeardownsRecord(f.w, env, tc.chTeardowns, CheckedTeardown);
    }
  }

  lemma LocatedTest(ps: seq<Point>)
    requires ps != []
    ensures
      var r := Located(InTest, ps);
      && Sound(r) && r.lastctx == CTX_TEST && r.usec == -1
      && r.testFile == Some(ps[|ps| - 1].file) && r.testLine == ps[|ps| - 1].line
  {
  }

  /** What SetNoforkInfo makes of the record after test and teardowns. */
  lemma BodyVerdict(r: Rcv, env: Env, tc: Case, tf: TestFun, i: int, k: nat)
    requires
      var b := env.did(k);
      var seen := Located(InTest, [tf.at] + PointsOf(b));
      var t := FirstStop(env, k + 1, |tc.chTeardowns|);
      && ComesBack(b.end)
      && (b.end.Assert? ==> StillBlamed(Ended(seen, b.end), r))
      && (b.end.Return? ==>
            && r.testFile == seen.testFile && r.testLine == seen.testLine
            && (t.None? ==> Sound(r) && r.lastctx != CTX_SETUP)
            && (t.Some? ==>
                  var end := env.did(k + 1 + t.value).end;
                  && end.Assert?
                  && r.text == Some(end.text) && r.failctx == CTX_TEARDOWN
                  && r.fixtureFile == Some(end.at.file) && r.fixtureLine == end.at.line))
    ensures
      SetNoforkInfo(Construct(r, false).(tcname := tc.name, tname := tf.name, iter := i, usec := env.did(k).usec))
      == ExpectBody(env, tc, tf, i, k)
  {
    var b := env.did(k);
    var ps := [tf.at] + PointsOf(b);
    LocatedTest(ps);
    if b.end.Assert? {
      assert ps[|ps| - 1] == b.end.at;
    } else {
      assert PointsOf(b) == b.points;
    }
  }

  lemma TestBodyGoes(w: World, env: Env, tf: TestFun, i: int, forked: bool)
    ensures
      var f, e := TestBody(w, env, tf, i, forked), env.did(w.next);
      var reached := Speaks(env) && Sends(tf.at, env.max);
      && OnlyRan(w, f.w)
      && f.w.next == w.next + (if reached then 1 else 0)
      && (f.Live? <==> reached && (e.end.Return? || (e.end.Assert? && !forked)))
      && (reached ==> f.w.pipe == w.pipe + ([Ctx(CTX_TEST), LocOf(tf.at)] + Sent(e)))
  {
    if Speaks(env) && Sends(tf.at, env.max) {
      assert w.pipe + [Ctx(CTX_TEST)] + [LocOf(tf.at)] == w.pipe + [Ctx(CTX_TEST), LocOf(tf.at)];
      ConcatAssoc(w.pipe, [Ctx(CTX_TEST), LocOf(tf.at)], Sent(env.did(w.next)));
    }
  }

  /** A test that finds an old failure in the pipe is blamed for it. */
  lemma BodyStained(w: World, env: Env, tc: Case, tf: TestFun, i: int, text: cstr)
    requires Marred(w, text) && TestBody(w, env, tf, i, false).Live?
    ensures Wiped(Teardowns(TestBody(w, env, tf, i, false).w, env, tc.chTeardowns, CheckedTeardown, false).w, text)
  {
    TestBodyGoes(w, env, tf, i, false);
    var w1 := TestBody(w, env, tf, i, false).w;
    var ms := [Ctx(CTX_TEST), LocOf(tf.at)] + Sent(env.did(w.next));
    assert ms[0] == Ctx(CTX_TEST);
    MarredStays(w, w1, ms, text);
    var more := TeardownsSend(w1, env, tc.chTeardowns, CheckedTeardown, false);
    MarredStays(w1, Teardowns(w1, env, tc.chTeardowns, CheckedTeardown, false).w, more, text);
  }

  lemma StainedVerdict(w: World, text: cstr, tcname: string, tname: string, i: int, usec: int32)
    requires Wiped(w, text)
    ensures SetNoforkInfo(Construct(Record(w), false).(tcname := tcname, tname := tname, iter := i, usec := usec))
            == Stained(text, tcname, tname, i, usec)
  {
  }

  lemma ClearVerdict(w: World, env: Env, tc: Case, tf: TestFun, i: int, w2: World)
    requires Harmless(w) && TestBody(w, env, tf, i, false).Live?
    requires Teardowns(TestBody(w, env, tf, i, false).w, env, tc.chTeardowns, CheckedTeardown, false) == Live(w2, true)
    ensures Record(w2).lastctx != CTX_INVALID
    ensures
      SetNoforkInfo(Construct(Record(w2), false)
                    .(tcname := tc.name, tname := tf.name, iter := i, usec := env.did(w.next).usec))
      == ExpectBody(env, tc, tf, i, w.next)
  {
    BodyThenTeardowns(w, env, tc, tf, i);
    LocatedTest([tf.at] + PointsOf(env.did(w.next)));
    BodyVerdict(Record(w2), env, tc, tf, i, w.next);
  }

  /** What the record says once the test and its teardowns have come back. */
  lemma BodyReport(w: World, env: Env, tc: Case, tf: TestFun, i: int, mood: Mood, w2: World)
    requires !env.fork && Bears(w, env, mood) && TestBody(w, env, tf, i, false).Live?
    requires Teardowns(TestBody(w, env, tf, i, false).w, env, tc.chTeardowns, CheckedTeardown, false) == Live(w2, true)
    ensures Record(w2).lastctx != CTX_INVALID
    ensures
      SetNoforkInfo(Construct(Record(w2), false)
                    .(tcname := tc.name, tname := tf.name, iter := i, usec := env.did(w.next).usec))
      == if mood.Tainted? then Stained(mood.text, tc.name, tf.name, i, env.did(w.next).usec)
         else ExpectBody(env, tc, tf, i, w.next)
  {
    if mood.Tainted? {
      BodyStained(w, env, tc, tf, i, mood.text);
      StainedVerdict(w2, mood.text, tc.name, tf.name, i, env.did(w.next).usec);
    } else {
      ClearVerdict(w, env, tc, tf, i, w2);
    }
  }

  lemma NoforkBodyReport(w: World, env: Env, tc: Case, tf: TestFun, i: int, mood: Mood)
    requires !env.fork && Bears(w, env, mood)
    ensures Foretold(w, env, NoforkBody(w, env, tc, tf, i), Forecast.Body(env, tc, tf, i, w.next, mood))
  {
    TestBodyGoes(w, env, tf, i, false);
    var f := TestBody(w, env, tf, i, false);
    if f.Live? {
      TeardownsGo(f.w, env, tc.chTeardowns, CheckedTeardown, false);
      TeardownsAnswerTrue(f.w, env, tc.chTeardowns, CheckedTeardown, false);
      var t := Teardowns(f.w, env, tc.chTeardowns, CheckedTeardown, false);
      if t.Live? {
        BodyReport(w, env, tc, tf, i, mood, t.w);
      }
    }
  }

  /** Without a child process, for every script and whatever is in the pipe: the runner
      survives the test if and only if every call the test makes comes back and every
      message can be sent; then its report is the expected one, and it has made the
      calls it should and left nothing in the pipe. */
  lemma NoforkReport(w: World, env: Env, tc: Case, tf: TestFun, i: int, mood: Mood)
    requires !env.fork && Bears(w, env, mood)
    ensures Foretold(w, env, NoforkTest(w, env, tc, tf, i), Forecast.WithoutChild(env, tc, tf, i, w.next, mood))
  {
    NoforkSetupsReport(w, env, tc.chSetups, CheckedSetup, tc.name, "checked_setup", mood);
    var s := NoforkSetups(w, env, tc.chSetups, CheckedSetup, tc.name, "checked_setup");
    if s.Live? && s.value.None? {
      var o := Forecast.Setups(env, |tc.chSetups|, w.next, mood, tc.name, "checked_setup");
      NoforkBodyReport(s.w, env, tc, tf, i, o.mood);
    }
  }

  // ---------- unchecked teardowns ----------

  lemma SentFits(env: Env, k: nat)
    requires Proper(env)
    ensures AllWithin(Sent(env.did(k)), env.max)
  {
    var e := env.did(k);
    assert forall p :: p in e.points ==> Sends(p, env.max);
    forall i | 0 <= i < |Sent(e)|
      ensures Sendable(Sent(e)[i], env.max)
    {
      if i < |e.points| {
        assert Sent(e)[i] == LocOf(e.points[i]);
        assert e.points[i] in e.points;
      }
    }
  }

  lemma GoodGrows(a: seq<Msg>, b: seq<Msg>, max: nat)
    requires Leftover(a) && NoFail(a) && AllWithin(a, max)
    requires Leftover(b) && NoFail(b) && AllWithin(b, max)
    ensures Leftover(a + b) && NoFail(a + b) && AllWithin(a + b, max)
  {
  }

  lemma QuietTeardown(ps: seq<Point>, max: nat)
    requires 8 <= max && AllWithin(Locs(ps), max)
    ensures
      var ms := [Ctx(CTX_TEARDOWN)] + Locs(ps);
      Leftover(ms) && NoFail(ms) && AllWithin(ms, max)
  {
  }

  lemma LeavesGood(w: World, env: Env, call: Call, forked: bool)
    requires Proper(env) && Good(w, env) && !env.did(w.next).end.Assert? && Speaks(env)
    ensures Good(OneTeardown(w, env, call, forked).w, env)
  {
    var ps := env.did(w.next).points;
    SentFits(env, w.next);
    assert Sent(env.did(w.next)) == Locs(ps);
    QuietTeardown(ps, env.max);
    GoodGrows(w.pipe, [Ctx(CTX_TEARDOWN)] + Locs(ps), env.max);
    ConcatAssoc(w.pipe, [Ctx(CTX_TEARDOWN)], Locs(ps));
  }

  lemma LeavesFailure(w: World, env: Env, call: Call, forked: bool)
    requires Harmless(w) && Speaks(env) && env.did(w.next).end.Assert?
    ensures Marred(OneTeardown(w, env, call, forked).w, env.did(w.next).end.text)
  {
    FirstContext(w, env, CTX_TEARDOWN);
    PerformRecord(Say(w, env, Ctx(CTX_TEARDOWN)).w, env, call, forked);
  }

  /** What teardowns from the k-th call on leave in a good pipe. */
  function MoodAfter(env: Env, k: nat, n: nat): Mood {
    var s := FirstStop(env, k, n);
    if s.Some? && env.did(k + s.value).end.Assert? then Tainted(env.did(k + s.value).end.text) else Clear
  }

  ghost predicate Left(w: World, env: Env, n: nat, f: Flow<bool>) {
    Forecast.TeardownsComeBack(env, n, w.next, env.fork) ==> Bears(f.w, env, MoodAfter(env, w.next, n))
  }

  lemma LeftCons(w: World, env: Env, n: nat, one: Flow<bool>, rest: Flow<bool>)
    requires one.w.next == w.next + 1 && CameBack(env.did(w.next).end, env.fork, one)
    requires env.did(w.next).end.Assert? ==> Marred(one.w, env.did(w.next).end.text)
    requires one.Live? && one.value ==> Left(one.w, env, n, rest)
    ensures Left(w, env, n + 1, ThenTeardowns(one, rest))
  {
  }

  /** Unchecked teardowns leave a good pipe good, or their first failure in it. */
  lemma {:induction false} TeardownsLeave(w: World, env: Env, fs: seq<Fixture>, role: Role)
    requires Proper(env) && Good(w, env) && Speaks(env)
    ensures Left(w, env, |fs|, Teardowns(w, env, fs, role, env.fork))
    decreases |fs|
  {
    if fs != [] {
      var one := OneTeardown(w, env, Call(role, fs[0]), env.fork);
      var rest := Teardowns(one.w, env, fs[1..], role, env.fork);
      if env.did(w.next).end.Assert? {
        LeavesFailure(w, env, Call(role, fs[0]), env.fork);
      } else {
        LeavesGood(w, env, Call(role, fs[0]), env.fork);
        TeardownsLeave(one.w, env, fs[1..], role);
      }
      LeftCons(w, env, |fs| - 1, one, rest);
      TeardownsUnfold(w, env, fs, role, env.fork);
    }
  }

  /** Unchecked teardowns, for every script and whatever is in the pipe. */
  lemma UncheckedTeardownsReport(w: World, env: Env, fs: seq<Fixture>, role: Role, mood: Mood)
    requires Proper(env) && Bears(w, env, mood)
    ensures Foretold(w, env, Teardowns(w, env, fs, role, env.fork), Forecast.Teardowns(env, |fs|, w.next, mood))
  {
    TeardownsGo(w, env, fs, role, env.fork);
    TeardownsAnswerTrue(w, env, fs, role, env.fork);
    if Forecast.TeardownsComeBack(env, |fs|, w.next, env.fork) {
      if mood.Tainted? {
        var ms := TeardownsSend(w, env, fs, role, env.fork);
        MarredStays(w, Teardowns(w, env, fs, role, env.fork).w, ms, mood.text);
      } else if fs != [] {
        TeardownsLeave(w, env, fs, role);
      }
    }
  }

  lemma {:induction false} TeardownsAnswerTrue(w: World, env: Env, fs: seq<Fixture>, role: Role, forked: bool)
    ensures Teardowns(w, env, fs, role, forked).Live? ==> Teardowns(w, env, fs, role, forked).value
    decreases |fs|
  {
    if fs != [] {
      var one := OneTeardown(w, env, Call(role, fs[0]), forked);
      if one.Live? && one.value {
        TeardownsAnswerTrue(one.w, env, fs[1..], role, forked);
      }
    }
  }
}
