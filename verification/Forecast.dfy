/** How a run of the suite runner will go, from the script, the size limit and the
    number of user calls made before: its results, or the end of its process. */
module Forecast {
  import opened Base
  import opened Codec
  import opened Results
  import opened TestRun
  import opened Expectations

  /** Setups in the runner's process: none fails, or the result of the first that does.
      An old failure in the pipe is taken for the first setup's own. */
  function Setups(env: Env, n: nat, k: nat, mood: Mood, tcname: string, tname: string): Outlook<Option<TestResult>> {
    var s := FirstStop(env, k, n);
    if n == 0 then Goes(None, k, mood)
    else if !Speaks(env) then Ends
    else if mood.Tainted? then
      if ComesBack(env.did(k).end) then Goes(Some(Stained(mood.text, tcname, tname, 0, -1)), k + 1, Clear) else Ends
    else if s.None? then Goes(None, k + n, Clear)
    else if env.did(k + s.value).end.Assert? then
      Goes(Some(Blame(CTX_SETUP, env.did(k + s.value).end, tcname, tname, 0, -1)), k + s.value + 1, Clear)
    else Ends
  }

  /** Teardowns in the runner's process stop at a failure. */
  predicate TeardownsComeBack(env: Env, n: nat, k: nat, forked: bool) {
    var s := FirstStop(env, k, n);
    (n == 0 || Speaks(env)) && (s.Some? ==> env.did(k + s.value).end.Assert? && !forked)
  }

  /** The test function and its teardowns in the runner's process. */
  function Body(env: Env, tc: Case, tf: TestFun, i: int, k: nat, mood: Mood): Outlook<TestResult> {
    if !Speaks(env) || !Sends(tf.at, env.max) || !ComesBack(env.did(k).end)
       || !TeardownsComeBack(env, |tc.chTeardowns|, k + 1, false)
    then Ends
    else
      var tr := if mood.Tainted? then Stained(mood.text, tc.name, tf.name, i, env.did(k).usec)
                else ExpectBody(env, tc, tf, i, k);
      Goes(tr, k + 1 + CallsMade(env, k + 1, |tc.chTeardowns|), Clear)
  }

  function WithoutChild(env: Env, tc: Case, tf: TestFun, i: int, k: nat, mood: Mood): Outlook<TestResult> {
    match Setups(env, |tc.chSetups|, k, mood, tc.name, "checked_setup")
    case Ends => Ends
    case Goes(failed, k1, mood1) =>
      if failed.Some? then Goes(failed.value, k1, mood1) else Body(env, tc, tf, i, k1, mood1)
  }

  /** The user calls a child makes from the test on. */
  function CallsFromTest(env: Env, tc: Case, tf: TestFun, k: nat): nat {
    if !Sends(tf.at, env.max) then 0
    else if !env.did(k).end.Return? then 1
    else 1 + CallsMade(env, k + 1, |tc.chTeardowns|)
  }

  /** The user calls a child makes. */
  function CallsInChild(env: Env, tc: Case, tf: TestFun, k: nat): nat {
    var n := |tc.chSetups|;
    if FirstStop(env, k, n).Some? then CallsMade(env, k, n) else n + CallsFromTest(env, tc, tf, k + n)
  }

  function Test(env: Env, tc: Case, tf: TestFun, i: int, k: nat, mood: Mood): Outlook<TestResult> {
    if !env.fork then WithoutChild(env, tc, tf, i, k, mood)
    else if !Speaks(env) then Ends
    else Goes(ExpectFork(env, tc, tf, i, k), k + CallsInChild(env, tc, tf, k), Clear)
  }

  // ---------- a test case ----------

  /** One test after the other. */
  function Tests(env: Env, tc: Case, items: seq<Item>, k: nat, mood: Mood): (o: Outlook<seq<TestResult>>)
    ensures o.Goes? ==> |o.value| == |items|
    decreases |items|
  {
    if items == [] then Goes([], k, mood)
    else
      match Test(env, tc, items[0].tf, items[0].i, k, mood)
      case Ends => Ends
      case Goes(tr, k1, mood1) =>
        match Tests(env, tc, items[1..], k1, mood1)
        case Ends => Ends
        case Goes(trs, k2, mood2) => Goes([tr] + trs, k2, mood2)
  }

  // ---------- the functions called ----------

  /** Setups in the runner's process: up to the first that fails, or only the first one
      if an old failure is taken for its own. */
  function SetupCalls(env: Env, fs: seq<Fixture>, role: Role, k: nat, mood: Mood): seq<Call> {
    Calls(role, fs[..if mood.Tainted? && fs != [] then 1 else CallsMade(env, k, |fs|)])
  }

  /** The test function with its loop value, and the teardowns if it comes back. */
  function BodyCalls(env: Env, tc: Case, tf: TestFun, i: int, k: nat): seq<Call> {
    var end := env.did(k).end;
    if !Sends(tf.at, env.max) then []
    else if end.Return? || (end.Assert? && !env.fork) then
      [Run(tf.fun, i)] + Calls(CheckedTeardown, tc.chTeardowns[..CallsMade(env, k + 1, |tc.chTeardowns|)])
    else [Run(tf.fun, i)]
  }

  function TestCalls(env: Env, tc: Case, tf: TestFun, i: int, k: nat, mood: Mood): seq<Call> {
    var n := |tc.chSetups|;
    if env.fork then
      SetupCalls(env, tc.chSetups, CheckedSetup, k, Clear)
      + if FirstStop(env, k, n).None? then BodyCalls(env, tc, tf, i, k + n) else []
    else
      var s := Setups(env, n, k, mood, tc.name, "checked_setup");
      SetupCalls(env, tc.chSetups, CheckedSetup, k, mood)
      + if s.Goes? && s.value.None? then BodyCalls(env, tc, tf, i, s.k) else []
  }

  function TestsCalls(env: Env, tc: Case, items: seq<Item>, k: nat, mood: Mood): seq<Call>
    decreases |items|
  {
    if items == [] then []
    else
      var o := Test(env, tc, items[0].tf, items[0].i, k, mood);
      TestCalls(env, tc, items[0].tf, items[0].i, k, mood)
      + if o.Goes? then TestsCalls(env, tc, items[1..], o.k, o.mood) else []
  }

  function CaseCalls(env: Env, tc: Case, k: nat, mood: Mood): seq<Call> {
    var s := Setups(env, |tc.unchSetups|, k, mood, tc.name, "unchecked_setup");
    SetupCalls(env, tc.unchSetups, UncheckedSetup, k, mood)
    + if s.Goes? && s.value.None? then AfterSetupsCalls(env, tc, s.k, s.mood) else []
  }

  function AfterSetupsCalls(env: Env, tc: Case, k: nat, mood: Mood): seq<Call> {
    var t := Tests(env, tc, Items(tc.tests), k, mood);
    TestsCalls(env, tc, Items(tc.tests), k, mood)
    + if t.Goes? then Calls(UncheckedTeardown, tc.unchTeardowns[..CallsMade(env, t.k, |tc.unchTeardowns|)]) else []
  }

  function CasesCalls(env: Env, tcs: seq<Case>, k: nat, mood: Mood): seq<Call>
    decreases |tcs|
  {
    if tcs == [] then []
    else
      var o := CaseOf(env, tcs[0], k, mood);
      CaseCalls(env, tcs[0], k, mood) + if o.Goes? then CasesCalls(env, tcs[1..], o.k, o.mood) else []
  }

  // ---------- cases ----------

  /** Unchecked teardowns: a failure outside a child stays behind, unless an older one does. */
  function Teardowns(env: Env, n: nat, k: nat, mood: Mood): Outlook<bool> {
    var s := FirstStop(env, k, n);
    if !TeardownsComeBack(env, n, k, env.fork) then Ends
    else Goes(true, k + CallsMade(env, k, n),
              if mood.Tainted? || s.None? then mood else Tainted(env.did(k + s.value).end.text))
  }

  function CaseOf(env: Env, tc: Case, k: nat, mood: Mood): (o: Outlook<CaseRun>)
    ensures o.Goes? ==> o.value.tc == tc && |o.value.results| == if o.value.ready then |Items(tc.tests)| else 1
  {
    match Setups(env, |tc.unchSetups|, k, mood, tc.name, "unchecked_setup")
    case Ends => Ends
    case Goes(failed, k1, mood1) =>
      if failed.Some? then Goes(CaseRun(tc, false, [failed.value]), k1, mood1)
      else
        match Tests(env, tc, Items(tc.tests), k1, mood1)
        case Ends => Ends
        case Goes(trs, k2, mood2) =>
          match Teardowns(env, |tc.unchTeardowns|, k2, mood2)
          case Ends => Ends
          case Goes(_, k3, mood3) => Goes(CaseRun(tc, true, trs), k3, mood3)
  }

  function Cases(env: Env, tcs: seq<Case>, k: nat, mood: Mood): (o: Outlook<seq<CaseRun>>)
    ensures o.Goes? ==> |o.value| == |tcs| && forall j :: 0 <= j < |tcs| ==> o.value[j].tc == tcs[j]
    decreases |tcs|
  {
    if tcs == [] then Goes([], k, mood)
    else
      match CaseOf(env, tcs[0], k, mood)
      case Ends => Ends
      case Goes(c, k1, mood1) =>
        match Cases(env, tcs[1..], k1, mood1)
        case Ends => Ends
        case Goes(cs, k2, mood2) => Goes([c] + cs, k2, mood2)
  }
}
