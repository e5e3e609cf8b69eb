/** End to end for tests run in a child process. */
module ForkReports {
  import opened Base
  import opened Codec
  import opened Receive
  import opened Streams
  import opened Results
  import opened TestRun
  import opened Expectations
  import Forecast
  import opened Reports

  const InSetup: Rcv := FreshRcv.(lastctx := CTX_SETUP)

  function FileOf(p: Option<Point>): Option<cstr> {
    if p.Some? then Some(p.value.file) else None
  }

  function LineOf(p: Option<Point>): int32 {
    if p.Some? then p.value.line else -1
  }

  predicate EndedLike(end: End, f: Flow<bool>) {
    && (f.Live? <==> end.Return?)
    && (f.Dead? ==> f.how == EndStatus(end) && (f.alarm <==> end.Die? && end.alarm))
  }

  // ---------- setups ----------

  /** Setups in a child: all return, or the first that does not ends the child. */
  predicate SetupsRecorded(w: World, env: Env, n: nat, f: Flow<bool>) {
    var r, j := Record(w), FirstStop(env, w.next, n);
    && OnlyRan(w, f.w)
    && (j.None? ==>
          f.Live? && f.w.next == w.next + n && Record(f.w) == Located(r, AllPoints(env, w.next, n)))
    && (j.Some? ==>
          var end := env.did(w.next + j.value).end;
          && f.Dead? && EndedLike(end, f) && f.w.next == w.next + j.value + 1
          && Record(f.w) == Ended(Located(r, AllPoints(env, w.next, j.value + 1)), end))
  }

  predicate CallRecorded(w: World, env: Env, f: Flow<bool>) {
    var e := env.did(w.next);
    && OnlyRan(w, f.w) && f.w.next == w.next + 1 && EndedLike(e.end, f)
    && Record(f.w) == Ended(Located(Record(w), PointsOf(e)), e.end)
    && (f.Live? ==> Sound(Record(f.w)))
  }

  lemma CallRecord(w: World, env: Env, call: Call)
    requires Sound(Record(w))
    ensures CallRecorded(w, env, Perform(w, env, call, true))
  {
    PerformRecord(w, env, call, true);
    LocatedSound(Record(w), PointsOf(env.did(w.next)));
  }

  function Then(one: Flow<bool>, rest: Flow<bool>): Flow<bool> {
    if one.Dead? then one.PropagateFailure() else rest
  }

  lemma SetupsCons(w: World, env: Env, n: nat, one: Flow<bool>, rest: Flow<bool>)
    requires CallRecorded(w, env, one)
    requires one.Live? ==> SetupsRecorded(one.w, env, n, rest)
    ensures SetupsRecorded(w, env, n + 1, Then(one, rest))
  {
    var e := env.did(w.next);
    if e.end.Return? {
      var j := FirstStop(env, w.next + 1, n);
      var m := if j.Some? then j.value + 1 else n;
      LocatedTwice(Record(w), PointsOf(e), AllPoints(env, w.next + 1, m));
      assert AllPoints(env, w.next, m + 1) == PointsOf(e) + AllPoints(env, w.next + 1, m);
    } else {
      assert AllPoints(env, w.next, 1) == PointsOf(e) + AllPoints(env, w.next + 1, 0);
      assert PointsOf(e) + [] == PointsOf(e);
    }
  }

  lemma LocatedSound(r: Rcv, ps: seq<Point>)
    requires Sound(r)
    ensures Sound(Located(r, ps)) && Located(r, ps).lastctx == r.lastctx && Located(r, ps).usec == r.usec
  {
  }

  lemma {:induction false} ForkSetupsRecord(w: World, env: Env, fs: seq<Fixture>)
    requires Sound(Record(w))
    ensures SetupsRecorded(w, env, |fs|, ForkSetups(w, env, fs))
    decreases |fs|
  {
    if fs != [] {
      var one := Perform(w, env, Call(CheckedSetup, fs[0]), true);
      var rest := ForkSetups(one.w, env, fs[1..]);
      CallRecord(w, env, Call(CheckedSetup, fs[0]));
      if one.Live? {
        ForkSetupsRecord(one.w, env, fs[1..]);
      }
      SetupsCons(w, env, |fs| - 1, one, rest);
      assert ForkSetups(w, env, fs) == Then(one, rest);
    }
  }

  lemma ReadyAfterSetups(w: World, env: Env, ps: seq<Point>)
    requires Record(w) == Located(InSetup, ps)
    ensures Ready(w, env)
  {
    if Sendable(Ctx(CTX_TEST), env.max) {
      SayRecord(w, env, Ctx(CTX_TEST));
    }
  }

  // ---------- teardowns ----------

  /** The record after teardowns in a child: test location kept, the last
      teardown's own location, and its failure if it failed. */
  predicate AfterTeardown(r: Rcv, r': Rcv, e: Act) {
    && r'.testFile == r.testFile && r'.testLine == r.testLine && r'.usec == r.usec
    && r'.lastctx == CTX_TEARDOWN
    && r'.fixtureFile == FileOf(Last(PointsOf(e))) && r'.fixtureLine == LineOf(Last(PointsOf(e)))
    && r'.text == (if e.end.Assert? then Some(e.end.text) else None)
    && r'.failctx == (if e.end.Assert? then CTX_TEARDOWN else CTX_INVALID)
  }

  lemma TornDownRecord(r: Rcv, e: Act)
    requires Sound(r)
    ensures AfterTeardown(r, TornDown(r, e), e)
  {
  }

  predicate TeardownsRecordedInChild(w: World, env: Env, n: nat, f: Flow<bool>) {
    var r, j := Record(w), FirstStop(env, w.next, n);
    && OnlyRan(w, f.w)
    && (n == 0 ==> f.Live? && f.w == w)
    && (n > 0 && j.None? ==> f.Live? && AfterTeardown(r, Record(f.w), env.did(w.next + n - 1)))
    && (j.Some? ==>
          var e := env.did(w.next + j.value);
          f.Dead? && EndedLike(e.end, f) && AfterTeardown(r, Record(f.w), e))
  }

  lemma TeardownsInChildCons(w: World, env: Env, n: nat, one: Flow<bool>, rest: Flow<bool>)
    requires Sound(Record(w)) && Sendable(Ctx(CTX_TEARDOWN), env.max) && TeardownMet(w, env, one, true)
    requires one.Live? ==> TeardownsRecordedInChild(one.w, env, n, rest)
    ensures TeardownsRecordedInChild(w, env, n + 1, ThenTeardowns(one, rest))
  {
    TornDownRecord(Record(w), env.did(w.next));
  }

  lemma {:induction false} ForkTeardownsRecord(w: World, env: Env, fs: seq<Fixture>)
    requires Sound(Record(w)) && Sendable(Ctx(CTX_TEARDOWN), env.max)
    ensures TeardownsRecordedInChild(w, env, |fs|, Teardowns(w, env, fs, CheckedTeardown, true))
    decreases |fs|
  {
    if fs != [] {
      var one := OneTeardown(w, env, Call(CheckedTeardown, fs[0]), true);
      var rest := Teardowns(one.w, env, fs[1..], CheckedTeardown, true);
      OneTeardownRecord(w, env, Call(CheckedTeardown, fs[0]), true);
      if one.Live? {
        ForkTeardownsRecord(one.w, env, fs[1..]);
      }
      TeardownsInChildCons(w, env, |fs| - 1, one, rest);
      TeardownsUnfold(w, env, fs, CheckedTeardown, true);
    }
  }

  // ---------- the child ----------

  /** The record says what the tale says. */
  predicate Tells(r: Rcv, t: Tale) {
    && r.lastctx == t.ctx != CTX_INVALID
    && r.text == (if t.end.Assert? then Some(t.end.text) else None)
    && r.failctx == (if t.end.Assert? then t.ctx else CTX_INVALID)
    && r.testFile == FileOf(t.test) && r.testLine == LineOf(t.test)
    && (t.ctx != CTX_TEST ==> r.fixtureFile == FileOf(t.here) && r.fixtureLine == LineOf(t.here))
    && r.usec == (if t.usec.Some? then t.usec.value else -1)
  }

  predicate ChildRecorded(w: World, f: Flow<bool>, t: Tale, calls: nat) {
    && OnlyRan(w, f.w) && f.w.next == w.next + calls
    && StatusOf(f) == EndStatus(t.end)
    && ((f.Dead? && f.alarm) <==> (t.end.Die? && t.end.alarm))
    && Tells(Record(f.w), t)
  }

  lemma TellsSetup(w: World, env: Env, tc: Case, tf: TestFun)
    requires Record(w) == InSetup
    requires FirstStop(env, w.next, |tc.chSetups|).Some?
    ensures ForkSetups(w, env, tc.chSetups).Dead?
    ensures ChildRecorded(w, ForkSetups(w, env, tc.chSetups), TaleOf(env, tc, tf, w.next),
                          CallsMade(env, w.next, |tc.chSetups|))
  {
    ForkSetupsRecord(w, env, tc.chSetups);
    var j := FirstStop(env, w.next, |tc.chSetups|).value;
    LocatedSound(InSetup, AllPoints(env, w.next, j + 1));
  }

  /** The rest of the child once its setups have returned. */
  function AfterSetups(w: World, env: Env, tc: Case, tf: TestFun, i: int): Flow<bool> {
    var (w1, _) :- TestBody(w, env, tf, i, true);
    var (w2, _) :- Teardowns(w1, env, tc.chTeardowns, CheckedTeardown, true);
    Say(w2, env, Duration(UsecOf(w, env)))
  }

  lemma TellsBody(w: World, env: Env, tc: Case, tf: TestFun, i: int)
    requires Ready(w, env) && Sendable(Ctx(CTX_TEST), env.max)
    requires !Sends(tf.at, env.max) || !env.did(w.next).end.Return?
    ensures ChildRecorded(w, AfterSetups(w, env, tc, tf, i), TestTale(env, tc, tf, w.next),
                          Forecast.CallsFromTest(env, tc, tf, w.next))
  {
    BodyRecord(w, env, tf, i, true);
    TestBodyGoes(w, env, tf, i, true);
    LocatedTest([tf.at] + PointsOf(env.did(w.next)));
  }

  lemma BodyReturned(w: World, env: Env, tf: TestFun, i: int)
    requires Ready(w, env) && Sendable(Ctx(CTX_TEST), env.max)
    requires Sends(tf.at, env.max) && env.did(w.next).end.Return?
    ensures
      var f := TestBody(w, env, tf, i, true);
      var seen := Last([tf.at] + PointsOf(env.did(w.next)));
      && f.Live? && OnlyRan(w, f.w) && f.w.next == w.next + 1
      && Sound(Record(f.w)) && Record(f.w).lastctx == CTX_TEST && Record(f.w).usec == -1
      && Record(f.w).testFile == FileOf(seen) && Record(f.w).testLine == LineOf(seen)
  {
    BodyRecord(w, env, tf, i, true);
    LocatedTest([tf.at] + PointsOf(env.did(w.next)));
  }

  /** From the record after the teardowns to the end of the child. */
  lemma TellsEnd(w: World, env: Env, tc: Case, tf: TestFun, k: nat, w1: World, f: Flow<bool>)
    requires Sends(tf.at, env.max) && env.did(k).end.Return? && Sendable(Ctx(CTX_TEST), env.max) && w.next == k
    requires
      var seen := Last([tf.at] + PointsOf(env.did(k)));
      && OnlyRan(w, w1) && w1.next == k + 1
      && Sound(Record(w1)) && Record(w1).lastctx == CTX_TEST && Record(w1).usec == -1
      && Record(w1).testFile == FileOf(seen) && Record(w1).testLine == LineOf(seen)
    requires TeardownsRecordedInChild(w1, env, |tc.chTeardowns|, f)
    requires Went(w1, env, |tc.chTeardowns|, f, true)
    ensures ChildRecorded(w, if f.Dead? then f else Say(f.w, env, Duration(env.did(k).usec)), TestTale(env, tc, tf, k),
                          Forecast.CallsFromTest(env, tc, tf, k))
  {
    var usec, m := env.did(k).usec, |tc.chTeardowns|;
    if m > 0 && FirstStop(env, k + 1, m).None? {
      ReturnsBefore(env, k + 1, m, k + m);
    }
    if f.Live? && 0 <= usec {
      SayRecord(f.w, env, Duration(usec));
    }
  }

  lemma TellsTest(w: World, env: Env, tc: Case, tf: TestFun, i: int)
    requires Ready(w, env) && Sendable(Ctx(CTX_TEST), env.max)
    ensures ChildRecorded(w, AfterSetups(w, env, tc, tf, i), TestTale(env, tc, tf, w.next),
                          Forecast.CallsFromTest(env, tc, tf, w.next))
  {
    if !Sends(tf.at, env.max) || !env.did(w.next).end.Return? {
      TellsBody(w, env, tc, tf, i);
    } else {
      BodyReturned(w, env, tf, i);
      var w1 := TestBody(w, env, tf, i, true).w;
      ForkTeardownsRecord(w1, env, tc.chTeardowns);
      TeardownsGo(w1, env, tc.chTeardowns, CheckedTeardown, true);
      TellsEnd(w, env, tc, tf, w.next, w1, Teardowns(w1, env, tc.chTeardowns, CheckedTeardown, true));
    }
  }

  /** The child behind its first message. */
  function AfterContext(w: World, env: Env, tc: Case, tf: TestFun, i: int): Flow<bool> {
    var (w1, _) :- ForkSetups(w, env, tc.chSetups);
    AfterSetups(w1, env, tc, tf, i)
  }

  lemma TellsPastSetups(w: World, env: Env, tc: Case, tf: TestFun, i: int)
    requires Record(w) == InSetup && Speaks(env)
    requires FirstStop(env, w.next, |tc.chSetups|).None?
    ensures ChildRecorded(w, AfterContext(w, env, tc, tf, i), TaleOf(env, tc, tf, w.next),
                          Forecast.CallsInChild(env, tc, tf, w.next))
  {
    ForkSetupsRecord(w, env, tc.chSetups);
    var w1 := ForkSetups(w, env, tc.chSetups).w;
    ReadyAfterSetups(w1, env, AllPoints(env, w.next, |tc.chSetups|));
    TellsTest(w1, env, tc, tf, i);
  }

  lemma TellsAfterContext(w: World, env: Env, tc: Case, tf: TestFun, i: int)
    requires Record(w) == InSetup && Speaks(env)
    ensures ChildRecorded(w, AfterContext(w, env, tc, tf, i), TaleOf(env, tc, tf, w.next),
                          Forecast.CallsInChild(env, tc, tf, w.next))
  {
    if FirstStop(env, w.next, |tc.chSetups|).Some? {
      TellsSetup(w, env, tc, tf);
    } else {
      TellsPastSetups(w, env, tc, tf, i);
    }
  }

  /** For every script, what a child leaves behind tells its tale, and it has made the
      calls it should. */
  lemma ChildTellsTale(w: World, env: Env, tc: Case, tf: TestFun, i: int)
    requires Harmless(w) && Speaks(env)
    ensures ChildRecorded(w, Child(w, env, tc, tf, i), TaleOf(env, tc, tf, w.next),
                          Forecast.CallsInChild(env, tc, tf, w.next))
  {
    FirstContext(w, env, CTX_SETUP);
    var w1 := Say(w, env, Ctx(CTX_SETUP)).w;
    TellsAfterContext(w1, env, tc, tf, i);
    assert Child(w, env, tc, tf, i) == AfterContext(w1, env, tc, tf, i);
  }

  // ---------- the report ----------

  /** set_fork_info judges every end of a child as it deserves. */
  lemma ForkJudges(tr: TestResult, end: End, expected: int, allowed: int)
    requires tr.note == if end.Assert? then Some(Text(end.text)) else None
    ensures
      var v := VerdictOn(end, expected, allowed);
      SetForkInfo(tr, EndStatus(end), end.Die? && end.alarm, expected, allowed)
      == tr.(rtype := v.rtype, note := Some(v.note))
  {
    if EndStatus(end).Exited? {
      var code := EndStatus(end).code;
      assert SignedChar(code) == ShownStatus(code);
      assert SignedChar(code) == SignedChar(allowed) <==> code == allowed % 0x100;
    }
  }

  /** construct_test_result finds the place, from the record a child left. */
  lemma ForkPlaces(r: Rcv, t: Tale, expected: int)
    requires Tells(r, t)
    ensures
      var note := if t.end.Assert? then Some(Text(t.end.text)) else None;
      Construct(r, WasError(EndStatus(t.end), expected)) == Place(t, expected, FreshResult.(note := note))
  {
    assert WasError(EndStatus(t.end), expected) <==> Trouble(t.end, expected);
  }

  lemma ForkVerdict(r: Rcv, env: Env, tc: Case, tf: TestFun, i: int, k: nat)
    requires Tells(r, TaleOf(env, tc, tf, k))
    ensures
      var t := TaleOf(env, tc, tf, k);
      var status := EndStatus(t.end);
      SetForkInfo(
        Construct(r, WasError(status, tf.signal)).(tcname := tc.name, tname := tf.name, iter := i),
        status, t.end.Die? && t.end.alarm, tf.signal, tf.allowedExit)
      == ExpectFork(env, tc, tf, i, k)
  {
    var t := TaleOf(env, tc, tf, k);
    ForkPlaces(r, t, tf.signal);
    ForkJudges(Construct(r, WasError(EndStatus(t.end), tf.signal)).(tcname := tc.name, tname := tf.name, iter := i),
               t.end, tf.signal, tf.allowedExit);
  }

  lemma LeftoverFits(left: seq<Msg>, max: nat)
    requires Leftover(left) && AllWithin(left, max)
    ensures left == [] || 8 <= max
  {
    if left != [] {
      assert WireSize(left[0]) == 8;
    }
  }

  /** In a child process, for every script: the runner survives the test if and only if
      context messages can be sent; then its report is the expected one, the child has
      made the calls it should, and the pipe is clear again. */
  lemma ForkReport(w: World, env: Env, tc: Case, tf: TestFun, i: int)
    requires env.fork && Good(w, env)
    ensures Foretold(w, env, ForkTest(w, env, tc, tf, i), Forecast.Test(env, tc, tf, i, w.next, Clear))
  {
    if Speaks(env) {
      ChildTellsTale(w, env, tc, tf, i);
      ForkVerdict(Record(Child(w, env, tc, tf, i).w), env, tc, tf, i, w.next);
    } else {
      LeftoverFits(w.pipe, env.max);
    }
  }

  /** A child whose first trouble is a failed assertion: its text, phase and
      location are reported if and only if no signal was expected and 1 is not
      the allowed exit status. */
  lemma AssertionReportedIff(env: Env, tc: Case, tf: TestFun, i: int, k: nat)
    requires TaleOf(env, tc, tf, k).end.Assert?
    ensures
      var t := TaleOf(env, tc, tf, k);
      ExpectFork(env, tc, tf, i, k) == Blame(t.ctx, t.end, tc.name, tf.name, i, -1)
      <==> tf.signal == 0 && tf.allowedExit % 0x100 != 1
  {
    TaleLocation(env, tc, tf, k);
  }

  /** A child is reported where it got into trouble if and only if it did: in the phase
      that it reached, at the last point it marked there. Otherwise it is reported at its
      test, or in the setup that it ended in with status zero or the expected signal. */
  lemma TroubleLocated(env: Env, tc: Case, tf: TestFun, i: int, k: nat)
    ensures
      var t, tr := TaleOf(env, tc, tf, k), ExpectFork(env, tc, tf, i, k);
      var died := match t.end { case Return => false case Assert(_, _) => true
                                case Exit(code) => code != 0 case Die(sig, _) => sig != tf.signal };
      var last := if t.ctx == CTX_TEST then t.test else t.here;
      && (died || t.ctx == CTX_SETUP ==> tr.ctx == t.ctx && tr.file == FileOf(last) && tr.line == LineOf(last))
      && (!died && t.ctx != CTX_SETUP ==> tr.ctx == CTX_TEST && tr.file == FileOf(t.test) && tr.line == LineOf(t.test))
      && (!died && t.ctx != CTX_SETUP && t.usec.Some? ==> tr.usec == t.usec.value)
      && (died ==> tr.usec == -1)
  {
  }

  /** A tale that ends in an assertion was last seen there. */
  lemma TaleLocation(env: Env, tc: Case, tf: TestFun, k: nat)
    requires TaleOf(env, tc, tf, k).end.Assert?
    ensures
      var t := TaleOf(env, tc, tf, k);
      (if t.ctx == CTX_TEST then t.test else t.here) == Some(t.end.at)
  {
    var n := |tc.chSetups|;
    var s := FirstStop(env, k, n);
    if s.Some? {
      AllPointsEnd(env, k, s.value);
    }
  }

  lemma {:induction false} AllPointsEnd(env: Env, k: nat, j: nat)
    requires env.did(k + j).end.Assert?
    ensures Last(AllPoints(env, k, j + 1)) == Some(env.did(k + j).end.at)
    decreases j
  {
    var rest := AllPoints(env, k + 1, j);
    if j > 0 {
      AllPointsEnd(env, k + 1, j - 1);
    }
    assert AllPoints(env, k, j + 1) == PointsOf(env.did(k)) + rest;
  }
}
