/** Which user functions are called, and in which order. */
module Fixtures {
  import opened Base
  import opened Codec
  import opened Results
  import opened TestRun
  import opened Expectations
  import opened Reports
  import opened UserCalls
  import opened SuiteRun

  // ---------- registration ----------

  datatype Registration = Registration(setup: Option<Fixture>, teardown: Option<Fixture>, checked: bool)

  function ListOf(f: Option<Fixture>): seq<Fixture> {
    if f.Some? then [f.value] else []
  }

  /** tcase_add_fixture: setups go to the end of their list, teardowns to the front. */
  function AddFixture(tc: Case, r: Registration): Case {
    if r.checked
    then tc.(chSetups := tc.chSetups + ListOf(r.setup), chTeardowns := ListOf(r.teardown) + tc.chTeardowns)
    else tc.(unchSetups := tc.unchSetups + ListOf(r.setup), unchTeardowns := ListOf(r.teardown) + tc.unchTeardowns)
  }

  function Register(tc: Case, rs: seq<Registration>): Case
    decreases |rs|
  {
    if rs == [] then tc else Register(AddFixture(tc, rs[0]), rs[1..])
  }

  /** The setups, and the teardowns, of one kind in the order they were registered. */
  function SetupsOf(rs: seq<Registration>, checked: bool): seq<Fixture>
    decreases |rs|
  {
    if rs == [] then []
    else (if rs[0].checked == checked then ListOf(rs[0].setup) else []) + SetupsOf(rs[1..], checked)
  }

  function TeardownsOf(rs: seq<Registration>, checked: bool): seq<Fixture>
    decreases |rs|
  {
    if rs == [] then []
    else (if rs[0].checked == checked then ListOf(rs[0].teardown) else []) + TeardownsOf(rs[1..], checked)
  }

  /** For every sequence of registrations: setups are stored in registration order
      and teardowns in reverse, each kind apart. */
  lemma {:induction false} RegistrationOrder(tc: Case, rs: seq<Registration>)
    ensures
      var r := Register(tc, rs);
      && r.chSetups == tc.chSetups + SetupsOf(rs, true)
      && r.unchSetups == tc.unchSetups + SetupsOf(rs, false)
      && r.chTeardowns == Reversed(TeardownsOf(rs, true)) + tc.chTeardowns
      && r.unchTeardowns == Reversed(TeardownsOf(rs, false)) + tc.unchTeardowns
    decreases |rs|
  {
    if rs != [] {
      var one := AddFixture(tc, rs[0]);
      RegistrationOrder(one, rs[1..]);
      StoredFirst(tc.chSetups, tc.chTeardowns, rs, true);
      StoredFirst(tc.unchSetups, tc.unchTeardowns, rs, false);
    } else {
      assert Reversed<Fixture>([]) == [];
    }
  }

  lemma StoredFirst(setups: seq<Fixture>, teardowns: seq<Fixture>, rs: seq<Registration>, checked: bool)
    requires rs != []
    ensures
      var s := if rs[0].checked == checked then ListOf(rs[0].setup) else [];
      var t := if rs[0].checked == checked then ListOf(rs[0].teardown) else [];
      && (setups + s) + SetupsOf(rs[1..], checked) == setups + SetupsOf(rs, checked)
      && Reversed(TeardownsOf(rs[1..], checked)) + (t + teardowns) == Reversed(TeardownsOf(rs, checked)) + teardowns
  {
    var s := if rs[0].checked == checked then ListOf(rs[0].setup) else [];
    var t := if rs[0].checked == checked then ListOf(rs[0].teardown) else [];
    ConcatAssoc(setups, s, SetupsOf(rs[1..], checked));
    ReversedAppend(t, TeardownsOf(rs[1..], checked));
    assert Reversed(t) == t;
    ConcatAssoc(Reversed(TeardownsOf(rs[1..], checked)), t, teardowns);
  }

  // ---------- one test ----------

  /** The calls of one test: the first `p` setups; then, only when all of them have
      been called, possibly the body followed by the first `q` teardowns. */
  predicate TestCalls(tc: Case, tf: TestFun, i: int, before: seq<Call>, after: seq<Call>, p: nat, body: bool, q: nat) {
    && p <= |tc.chSetups| && q <= |tc.chTeardowns|
    && (body ==> p == |tc.chSetups|)
    && (!body ==> q == 0)
    && after == before + Calls(CheckedSetup, tc.chSetups[..p])
                + (if body then [Run(tf.fun, i)] + Calls(CheckedTeardown, tc.chTeardowns[..q]) else [])
  }

  /** In a child, whatever the script: setups in order, the body only if all of
      them returned, teardowns in order behind it. */
  lemma ChildDiscipline(w: World, env: Env, tc: Case, tf: TestFun, i: int) returns (p: nat, body: bool, q: nat)
    ensures TestCalls(tc, tf, i, w.calls, Child(w, env, tc, tf, i).w.calls, p, body, q)
    ensures body ==> forall k :: w.next <= k < w.next + |tc.chSetups| ==> env.did(k).end.Return?
  {
    p, body, q := 0, false, 0;
    CalledNone(w, CheckedSetup, tc.chSetups);
    assert w.calls + [] + [] == w.calls;
    var s0 := Say(w, env, Ctx(CTX_SETUP));
    if s0.Live? {
      p := ForkSetupsCalls(s0.w, env, tc.chSetups);
      var s := ForkSetups(s0.w, env, tc.chSetups);
      assert s.w.calls + [] == s.w.calls;
      if s.Live? {
        body, q := BodyCalls(s.w, env, tc, tf, i, true);
      }
    }
  }

  /** The same outside a child, where a setup has passed when its own result says so. */
  lemma NoforkDiscipline(w: World, env: Env, tc: Case, tf: TestFun, i: int, mood: Mood)
    returns (p: nat, body: bool, q: nat)
    ensures TestCalls(tc, tf, i, w.calls, NoforkTest(w, env, tc, tf, i).w.calls, p, body, q)
    ensures body && Bears(w, env, mood) ==> forall k :: w.next <= k < w.next + |tc.chSetups| ==> env.did(k).end.Return?
  {
    p := NoforkSetupsCalls(w, env, tc.chSetups, CheckedSetup, tc.name, "checked_setup");
    body, q := false, 0;
    var s := NoforkSetups(w, env, tc.chSetups, CheckedSetup, tc.name, "checked_setup");
    assert s.w.calls + [] == s.w.calls;
    if s.Live? && s.value.None? {
      body, q := BodyCalls(s.w, env, tc, tf, i, false);
      if Bears(w, env, mood) {
        NoforkSetupsReport(w, env, tc.chSetups, CheckedSetup, tc.name, "checked_setup", mood);
        forall k | w.next <= k < w.next + |tc.chSetups| ensures env.did(k).end.Return? {
          ReturnsBefore(env, w.next, |tc.chSetups|, k);
        }
      }
    }
  }

  // ---------- a case ----------

  predicate Checked(cs: seq<Call>) {
    forall i :: 0 <= i < |cs| ==> cs[i].Run? || cs[i].role in {CheckedSetup, CheckedTeardown}
  }

  lemma {:induction false} CallsRole(role: Role, fs: seq<Fixture>)
    requires role in {CheckedSetup, CheckedTeardown}
    ensures Checked(Calls(role, fs))
    decreases |fs|
  {
    if fs != [] {
      CallsRole(role, fs[1..]);
    }
  }

  /** Running tests calls test functions and checked fixtures only. */
  lemma OneTestCalls(w: World, env: Env, tc: Case, tf: TestFun, i: int) returns (new_: seq<Call>)
    ensures Checked(new_) && OneTest(w, env, tc, tf, i).w.calls == w.calls + new_
  {
    var p, body, q;
    if env.fork {
      p, body, q := ChildDiscipline(w, env, tc, tf, i);
    } else {
      p, body, q := NoforkDiscipline(w, env, tc, tf, i, Clear);
    }
    var setups := Calls(CheckedSetup, tc.chSetups[..p]);
    var rest := if body then [Run(tf.fun, i)] + Calls(CheckedTeardown, tc.chTeardowns[..q]) else [];
    CallsRole(CheckedSetup, tc.chSetups[..p]);
    CallsRole(CheckedTeardown, tc.chTeardowns[..q]);
    new_ := setups + rest;
    ConcatAssoc(w.calls, setups, rest);
  }

  lemma {:induction false} IterationsCalls(w: World, env: Env, tc: Case, tf: TestFun, i: int) returns (new_: seq<Call>)
    ensures Checked(new_) && Iterations(w, env, tc, tf, i).w.calls == w.calls + new_
    decreases tf.loopEnd - i
  {
    new_ := [];
    assert w.calls + [] == w.calls;
    if i < tf.loopEnd {
      assert Iterations(w, env, tc, tf, i) == IterateFrom(w, env, tc, tf, i);
      new_ := OneTestCalls(Log(w, StartTest(tc.name, tf.name)), env, tc, tf, i);
      var one := Iteration(w, env, tc, tf, i);
      if one.Live? {
        var more := IterationsCalls(one.w, env, tc, tf, i + 1);
        ConcatAssoc(w.calls, new_, more);
        new_ := new_ + more;
      }
    }
  }

  lemma {:induction false} TestsCalls(w: World, env: Env, tc: Case, tfs: seq<TestFun>) returns (new_: seq<Call>)
    ensures Checked(new_) && Tests(w, env, tc, tfs).w.calls == w.calls + new_
    decreases |tfs|
  {
    new_ := [];
    assert w.calls + [] == w.calls;
    if tfs != [] {
      new_ := IterationsCalls(w, env, tc, tfs[0], tfs[0].loopStart);
      var one := Iterations(w, env, tc, tfs[0], tfs[0].loopStart);
      if one.Live? {
        var more := TestsCalls(one.w, env, tc, tfs[1..]);
        ConcatAssoc(w.calls, new_, more);
        new_ := new_ + more;
      }
    }
  }

  /** A case the runner survives: unchecked setups first, in order; if they pass
      they were all called, and behind the tests the unchecked teardowns start;
      if not, nothing else of the case is called at all. */
  lemma CaseDiscipline(w: World, env: Env, tc: Case) returns (p: nat, tests: seq<Call>, q: nat)
    requires RunCase(w, env, tc).Live?
    ensures
      var ready := UncheckedSetups(w, env, tc).value;
      && p <= |tc.unchSetups| && q <= |tc.unchTeardowns| && Checked(tests)
      && (ready ==> p == |tc.unchSetups| && (tc.unchTeardowns != [] ==> q > 0))
      && (!ready ==> tests == [] && q == 0)
      && RunCase(w, env, tc).w.calls ==
           w.calls + Calls(UncheckedSetup, tc.unchSetups[..p]) + tests
           + Calls(UncheckedTeardown, tc.unchTeardowns[..q])
  {
    p := NoforkSetupsCalls(w, env, tc.unchSetups, UncheckedSetup, tc.name, "unchecked_setup");
    tests, q := [], 0;
    var s := UncheckedSetups(w, env, tc);
    assert s.w.calls + [] + [] == s.w.calls;
    assert tc.unchTeardowns[..0] == [];
    if s.value {
      tests := TestsCalls(s.w, env, tc, tc.tests);
      q := TeardownsCalls(Tests(s.w, env, tc, tc.tests).w, env, tc.unchTeardowns, UncheckedTeardown, env.fork);
    }
  }
}
