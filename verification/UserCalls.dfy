/** The calls of user code that one test makes, exactly. */
module UserCalls {
  import opened Base
  import opened Codec
  import opened Results
  import opened TestRun
  import opened Expectations
  import Forecast
  import opened Reports
  import opened ForkReports

  /** The first `p` of these fixtures were called, and nothing else. */
  predicate CalledFirst(before: World, after: World, role: Role, fs: seq<Fixture>, p: nat) {
    && p <= |fs|
    && after.calls == before.calls + Calls(role, fs[..p])
    && after.next == before.next + p
  }

  lemma CalledNone(w: World, role: Role, fs: seq<Fixture>)
    ensures CalledFirst(w, w, role, fs, 0)
  {
    assert fs[..0] == [] && w.calls + [] == w.calls;
  }

  lemma CalledCons(w: World, w1: World, w2: World, role: Role, fs: seq<Fixture>, p: nat)
    requires fs != [] && w1.calls == w.calls + [Call(role, fs[0])] && w1.next == w.next + 1
    requires CalledFirst(w1, w2, role, fs[1..], p)
    ensures CalledFirst(w, w2, role, fs, p + 1)
  {
    assert fs[..p + 1][1..] == fs[1..][..p];
    ConcatAssoc(w.calls, [Call(role, fs[0])], Calls(role, fs[1..][..p]));
  }

  lemma SetupCalls(w: World, env: Env, call: Call, tcname: string, tname: string)
    ensures
      var f := NoforkSetup(w, env, call, tcname, tname);
      || (f.w.calls == w.calls + [call] && f.w.next == w.next + 1)
      || (f.Dead? && f.w.calls == w.calls && f.w.next == w.next)
  {
  }

  lemma {:induction false} NoforkSetupsCalls(
    w: World, env: Env, fs: seq<Fixture>, role: Role, tcname: string, tname: string) returns (p: nat)
    ensures
      var f := NoforkSetups(w, env, fs, role, tcname, tname);
      CalledFirst(w, f.w, role, fs, p) && (f.Live? && f.value.None? ==> p == |fs|)
    decreases |fs|
  {
    p := 0;
    CalledNone(w, role, fs);
    if fs != [] {
      var call := Call(role, fs[0]);
      var one := NoforkSetup(w, env, call, tcname, tname);
      SetupCalls(w, env, call, tcname, tname);
      if one.w.next != w.next {
        CalledNone(one.w, role, fs[1..]);
        if one.Live? && one.value.rtype == Pass {
          p := NoforkSetupsCalls(one.w, env, fs[1..], role, tcname, tname);
        }
        var rest := NoforkSetups(one.w, env, fs[1..], role, tcname, tname);
        CalledCons(w, one.w, if one.Live? && one.value.rtype == Pass then rest.w else one.w, role, fs, p);
        p := p + 1;
      }
    }
  }

  lemma {:induction false} ForkSetupsCalls(w: World, env: Env, fs: seq<Fixture>) returns (p: nat)
    ensures
      var f := ForkSetups(w, env, fs);
      && CalledFirst(w, f.w, CheckedSetup, fs, p)
      && (f.Live? ==> p == |fs| && forall k :: w.next <= k < w.next + |fs| ==> env.did(k).end.Return?)
    decreases |fs|
  {
    p := 0;
    CalledNone(w, CheckedSetup, fs);
    if fs != [] {
      var one := Perform(w, env, Call(CheckedSetup, fs[0]), true);
      CalledNone(one.w, CheckedSetup, fs[1..]);
      if one.Live? {
        p := ForkSetupsCalls(one.w, env, fs[1..]);
      }
      CalledCons(w, one.w, if one.Live? then ForkSetups(one.w, env, fs[1..]).w else one.w, CheckedSetup, fs, p);
      p := p + 1;
    }
  }

  /** Teardowns: some first ones; if the process survives, at least one when there is one. */
  lemma {:induction false} TeardownsCalls(w: World, env: Env, fs: seq<Fixture>, role: Role, forked: bool)
    returns (q: nat)
    ensures
      var f := Teardowns(w, env, fs, role, forked);
      CalledFirst(w, f.w, role, fs, q) && (f.Live? && fs != [] ==> q > 0)
    decreases |fs|
  {
    q := 0;
    CalledNone(w, role, fs);
    if fs != [] {
      var one := OneTeardown(w, env, Call(role, fs[0]), forked);
      if one.w.next != w.next {
        CalledNone(one.w, role, fs[1..]);
        if one.Live? && one.value {
          q := TeardownsCalls(one.w, env, fs[1..], role, forked);
        }
        CalledCons(w, one.w, if one.Live? && one.value then Teardowns(one.w, env, fs[1..], role, forked).w else one.w,
                   role, fs, q);
        q := q + 1;
      }
    }
  }

  /** The body and the teardowns behind it, in either mode. */
  function BodyAndTeardowns(w: World, env: Env, tc: Case, tf: TestFun, i: int, forked: bool): Flow<bool> {
    var (w1, _) :- TestBody(w, env, tf, i, forked);
    Teardowns(w1, env, tc.chTeardowns, CheckedTeardown, forked)
  }

  lemma BodyCalls(w: World, env: Env, tc: Case, tf: TestFun, i: int, forked: bool) returns (body: bool, q: nat)
    ensures
      var f := BodyAndTeardowns(w, env, tc, tf, i, forked);
      && q <= |tc.chTeardowns| && (!body ==> q == 0 && f.Dead?)
      && f.w.calls == w.calls
           + (if body then [Run(tf.fun, i)] + Calls(CheckedTeardown, tc.chTeardowns[..q]) else [])
  {
    var b := TestBody(w, env, tf, i, forked);
    body, q := b.w.next != w.next, 0;
    assert w.calls + [] == w.calls;
    if body {
      assert b.w.calls == w.calls + [Run(tf.fun, i)];
      if b.Live? {
        q := TeardownsCalls(b.w, env, tc.chTeardowns, CheckedTeardown, forked);
      } else {
        CalledNone(b.w, CheckedTeardown, tc.chTeardowns);
      }
      ConcatAssoc(w.calls, [Run(tf.fun, i)], Calls(CheckedTeardown, tc.chTeardowns[..q]));
    }
  }

  // ---------- exactly these calls ----------

  lemma CallsOfSetups(w: World, env: Env, fs: seq<Fixture>, role: Role, tcname: string, tname: string, mood: Mood)
    requires Bears(w, env, mood) && NoforkSetups(w, env, fs, role, tcname, tname).Live?
    ensures NoforkSetups(w, env, fs, role, tcname, tname).w.calls
            == w.calls + Forecast.SetupCalls(env, fs, role, w.next, mood)
  {
    NoforkSetupsReport(w, env, fs, role, tcname, tname, mood);
    var p := NoforkSetupsCalls(w, env, fs, role, tcname, tname);
    assert p == if mood.Tainted? && fs != [] then 1 else CallsMade(env, w.next, |fs|);
  }

  lemma CallsOfTeardowns(w: World, env: Env, fs: seq<Fixture>, role: Role, forked: bool)
    requires Teardowns(w, env, fs, role, forked).Live? || Speaks(env)
    ensures Teardowns(w, env, fs, role, forked).w.calls
            == w.calls + Calls(role, fs[..CallsMade(env, w.next, |fs|)])
  {
    TeardownsGo(w, env, fs, role, forked);
    var q := TeardownsCalls(w, env, fs, role, forked);
    assert q == CallsMade(env, w.next, |fs|);
  }

  /** The test function is called with its loop value, and the teardowns behind it. */
  lemma CallsOfBody(w: World, env: Env, tc: Case, tf: TestFun, i: int)
    requires Speaks(env)
    ensures BodyAndTeardowns(w, env, tc, tf, i, env.fork).w.calls
            == w.calls + Forecast.BodyCalls(env, tc, tf, i, w.next)
  {
    var b := TestBody(w, env, tf, i, env.fork);
    TestBodyGoes(w, env, tf, i, env.fork);
    if !Sends(tf.at, env.max) {
      assert w.calls + [] == w.calls;
    } else {
      assert b.w.calls == w.calls + [Run(tf.fun, i)];
      if b.Live? {
        CallsOfTeardowns(b.w, env, tc.chTeardowns, CheckedTeardown, env.fork);
        ConcatAssoc(w.calls, [Run(tf.fun, i)],
                    Calls(CheckedTeardown, tc.chTeardowns[..CallsMade(env, w.next + 1, |tc.chTeardowns|)]));
      }
    }
  }

  /** The setups of a child: all of them, or up to the first that does not return. */
  predicate ChildSetupsCalled(w: World, env: Env, fs: seq<Fixture>, f: Flow<bool>) {
    var n := CallsMade(env, w.next, |fs|);
    && (f.Live? <==> FirstStop(env, w.next, |fs|).None?)
    && f.w.next == w.next + n && f.w.calls == w.calls + Calls(CheckedSetup, fs[..n])
  }

  lemma ChildSetupsCons(w: World, env: Env, fs: seq<Fixture>, one: Flow<bool>, rest: Flow<bool>)
    requires fs != [] && one == Perform(w, env, Call(CheckedSetup, fs[0]), true)
    requires one.Live? ==> ChildSetupsCalled(one.w, env, fs[1..], rest)
    ensures ChildSetupsCalled(w, env, fs, Then(one, rest))
  {
    var n := CallsMade(env, w.next, |fs|);
    assert fs[..n][0] == fs[0] && fs[..n][1..] == fs[1..][..n - 1];
    ConcatAssoc(w.calls, [Call(CheckedSetup, fs[0])], Calls(CheckedSetup, fs[1..][..n - 1]));
  }

  lemma {:induction false} CallsOfChildSetups(w: World, env: Env, fs: seq<Fixture>)
    ensures ChildSetupsCalled(w, env, fs, ForkSetups(w, env, fs))
    decreases |fs|
  {
    if fs == [] {
      assert w.calls + [] == w.calls;
    } else {
      var one := Perform(w, env, Call(CheckedSetup, fs[0]), true);
      var rest := ForkSetups(one.w, env, fs[1..]);
      if one.Live? {
        CallsOfChildSetups(one.w, env, fs[1..]);
      }
      ChildSetupsCons(w, env, fs, one, rest);
      assert ForkSetups(w, env, fs) == Then(one, rest);
    }
  }

  /** Telling how long the test took calls nobody. */
  lemma SameCalls(w: World, env: Env, tc: Case, tf: TestFun, i: int)
    ensures
      var s := ForkSetups(w, env, tc.chSetups);
      AfterContext(w, env, tc, tf, i).w.calls
      == if s.Live? then BodyAndTeardowns(s.w, env, tc, tf, i, true).w.calls else s.w.calls
  {
  }

  lemma CallsAfterContext(w: World, env: Env, tc: Case, tf: TestFun, i: int)
    requires Speaks(env) && env.fork
    ensures AfterContext(w, env, tc, tf, i).w.calls == w.calls + Forecast.TestCalls(env, tc, tf, i, w.next, Clear)
  {
    CallsOfChildSetups(w, env, tc.chSetups);
    var s := ForkSetups(w, env, tc.chSetups);
    SameCalls(w, env, tc, tf, i);
    if s.Live? {
      CallsOfBody(s.w, env, tc, tf, i);
    }
    JoinCalls(w, env, tc, tf, i, s, AfterContext(w, env, tc, tf, i).w.calls);
  }

  lemma JoinCalls(w: World, env: Env, tc: Case, tf: TestFun, i: int, s: Flow<bool>, all: seq<Call>)
    requires env.fork && ChildSetupsCalled(w, env, tc.chSetups, s)
    requires all == if s.Live? then s.w.calls + Forecast.BodyCalls(env, tc, tf, i, s.w.next) else s.w.calls
    ensures all == w.calls + Forecast.TestCalls(env, tc, tf, i, w.next, Clear)
  {
    var setups := Forecast.SetupCalls(env, tc.chSetups, CheckedSetup, w.next, Clear);
    ConcatAssoc(w.calls, setups, Forecast.BodyCalls(env, tc, tf, i, w.next + |tc.chSetups|));
    assert setups + [] == setups;
  }

  lemma CallsOfChild(w: World, env: Env, tc: Case, tf: TestFun, i: int)
    requires Speaks(env) && env.fork
    ensures Child(w, env, tc, tf, i).w.calls == w.calls + Forecast.TestCalls(env, tc, tf, i, w.next, Clear)
  {
    var w1 := Say(w, env, Ctx(CTX_SETUP)).w;
    CallsAfterContext(w1, env, tc, tf, i);
    assert Child(w, env, tc, tf, i) == AfterContext(w1, env, tc, tf, i);
  }

  lemma CallsWithoutChild(w: World, env: Env, tc: Case, tf: TestFun, i: int, mood: Mood)
    requires !env.fork && Bears(w, env, mood) && NoforkTest(w, env, tc, tf, i).Live?
    ensures NoforkTest(w, env, tc, tf, i).w.calls == w.calls + Forecast.TestCalls(env, tc, tf, i, w.next, mood)
  {
    var s := NoforkSetups(w, env, tc.chSetups, CheckedSetup, tc.name, "checked_setup");
    NoforkSetupsReport(w, env, tc.chSetups, CheckedSetup, tc.name, "checked_setup", mood);
    CallsOfSetups(w, env, tc.chSetups, CheckedSetup, tc.name, "checked_setup", mood);
    var setups := Forecast.SetupCalls(env, tc.chSetups, CheckedSetup, w.next, mood);
    if s.value.None? {
      NoforkReport(w, env, tc, tf, i, mood);
      CallsOfBody(s.w, env, tc, tf, i);
      ConcatAssoc(w.calls, setups, Forecast.BodyCalls(env, tc, tf, i, s.w.next));
    } else {
      assert setups + [] == setups;
    }
  }

  /** One test in either mode, for every script and whatever is in the pipe: survived
      exactly when foretold, with the foretold result, by calling the foretold functions. */
  lemma TestReport(w: World, env: Env, tc: Case, tf: TestFun, i: int, mood: Mood)
    requires Bears(w, env, mood)
    ensures Foretold(w, env, OneTest(w, env, tc, tf, i), Forecast.Test(env, tc, tf, i, w.next, mood))
    ensures OneTest(w, env, tc, tf, i).Live? ==>
              OneTest(w, env, tc, tf, i).w.calls == w.calls + Forecast.TestCalls(env, tc, tf, i, w.next, mood)
  {
    if env.fork {
      ForkReport(w, env, tc, tf, i);
      if Speaks(env) {
        CallsOfChild(w, env, tc, tf, i);
      }
    } else {
      NoforkReport(w, env, tc, tf, i, mood);
      if NoforkTest(w, env, tc, tf, i).Live? {
        CallsWithoutChild(w, env, tc, tf, i, mood);
      }
    }
  }
}
