/** What one run of a test does: the functions the user wrote are an oracle, and
    everything src/check_run.c does around them is spelled out. */
module TestRun {
  import opened Base
  import opened Codec
  import opened Receive
  import opened Results

  // ---------- the user's functions ----------

  datatype Point = Point(file: cstr, line: int32)

  /** How a user function ends: it returns, fails an assertion, leaves the process
      or is killed, possibly by the runner's timer. */
  datatype End =
    | Return
    | Assert(at: Point, text: cstr)
    | Exit(code: byte)
    | Die(sig: int, alarm: bool)

  /** One execution of a user function: the points it marks, its end, and how long it took. */
  datatype Act = Act(points: seq<Point>, end: End, usec: int32)

  /** Call number `n` of the whole run amounts to `did(n)`. */
  datatype Env = Env(did: nat -> Act, max: nat, fork: bool)

  /** The environment of a run whose call number `n` behaves as `script(n)`. */
  function EnvOf(script: nat -> Act, max: nat, fork: bool): Env {
    Env((n: nat) => Effective(script(n), max), max, fork)
  }

  function LocOf(p: Point): Msg {
    Loc(p.file, p.line)
  }

  function Locs(ps: seq<Point>): (ms: seq<Msg>)
    ensures |ms| == |ps|
    ensures forall i :: 0 <= i < |ps| ==> ms[i] == LocOf(ps[i])
  {
    if ps == [] then [] else [LocOf(ps[0])] + Locs(ps[1..])
  }

  predicate Sends(p: Point, max: nat) {
    Sendable(LocOf(p), max)
  }

  /** The points before the first that cannot be sent. */
  function SendablePoints(ps: seq<Point>, max: nat): (r: seq<Point>)
    ensures r <= ps
    ensures forall p :: p in r ==> Sends(p, max)
    ensures |r| < |ps| ==> !Sends(ps[|r|], max)
  {
    if ps == [] || !Sends(ps[0], max) then [] else [ps[0]] + SendablePoints(ps[1..], max)
  }

  /** What an execution amounts to: a message ppack refuses ends the process with status 2. */
  function Effective(a: Act, max: nat): (e: Act)
    ensures forall p :: p in e.points ==> Sends(p, max)
    ensures e.end.Assert? ==> Sends(e.end.at, max) && Sendable(Fail(e.end.text), max)
  {
    var ps := SendablePoints(a.points, max);
    if |ps| < |a.points| then
      Act(ps, Exit(2), a.usec)
    else if a.end.Assert? && !Sends(a.end.at, max) then
      Act(ps, Exit(2), a.usec)
    else if a.end.Assert? && !Sendable(Fail(a.end.text), max) then
      Act(ps + [a.end.at], Exit(2), a.usec)
    else
      a
  }

  /** All that user code gets sent can be sent. */
  ghost predicate Proper(env: Env) {
    forall k: nat ::
      && (forall p :: p in env.did(k).points ==> Sends(p, env.max))
      && (env.did(k).end.Assert? ==> Sends(env.did(k).end.at, env.max) && Sendable(Fail(env.did(k).end.text), env.max))
  }

  lemma EnvIsProper(script: nat -> Act, max: nat, fork: bool)
    ensures Proper(EnvOf(script, max, fork))
  {
    var env := EnvOf(script, max, fork);
    forall k: nat
      ensures env.did(k) == Effective(script(k), max)
    {
    }
  }

  /** The messages an execution leaves in the pipe. */
  function Sent(e: Act): seq<Msg> {
    Locs(e.points) + if e.end.Assert? then [LocOf(e.end.at), Fail(e.end.text)] else []
  }

  // ---------- what the runner works on ----------

  type Fixture = nat

  datatype TestFun = TestFun(
    name: string, fun: nat, at: Point, loopStart: int, loopEnd: int, signal: int, allowedExit: int)

  datatype Case = Case(
    name: string,
    tests: seq<TestFun>,
    unchSetups: seq<Fixture>,
    unchTeardowns: seq<Fixture>,
    chSetups: seq<Fixture>,
    chTeardowns: seq<Fixture>)

  datatype Role = UncheckedSetup | CheckedSetup | CheckedTeardown | UncheckedTeardown

  /** A call of user code: a fixture, or a test function with a value of its loop variable. */
  datatype Call = Call(role: Role, fun: nat) | Run(fun: nat, i: int)

  datatype Event =
    | InitLog
    | StartRunner
    | StartSuite(suite: string)
    | StartTest(case_: string, test: string)
    | EndTest(result: TestResult)
    | EndSuite(suite: string)
    | EndRunner
    | EndLog

  /** Everything a run changes: the unread messages, how often user code was
      called and by whom, the results with their counters, and the log events. */
  datatype World = World(
    pipe: seq<Msg>,
    next: nat,
    calls: seq<Call>,
    results: seq<TestResult>,
    nChecked: int,
    nFailed: int,
    nErrors: int,
    events: seq<Event>)

  /** A piece of the program either goes on with a value or ends its process. */
  datatype Flow<+T> = Live(w: World, value: T) | Dead(w: World, how: Status, alarm: bool) {
    predicate IsFailure() {
      Dead?
    }

    function PropagateFailure<U>(): Flow<U>
      requires Dead?
    {
      Dead(w, how, alarm)
    }

    function Extract(): (World, T)
      requires Live?
    {
      (w, value)
    }
  }

  /** Sending one message, or eprintf. */
  function Say(w: World, env: Env, m: Msg): Flow<bool> {
    if Sendable(m, env.max) then Live(w.(pipe := w.pipe + [m]), true) else Dead(w, Exited(2), false)
  }

  /** Calling a user function. A failed assertion ends a forked process with
      status 1 and otherwise jumps back to the runner, which sees false. */
  function Perform(w: World, env: Env, call: Call, forked: bool): Flow<bool> {
    var e := env.did(w.next);
    var w' := w.(next := w.next + 1, calls := w.calls + [call], pipe := w.pipe + Sent(e));
    match e.end
    case Return => Live(w', true)
    case Assert(_, _) => if forked then Dead(w', Exited(1), false) else Live(w', false)
    case Exit(code) => Dead(w', Exited(code), false)
    case Die(sig, alarm) => Dead(w', Signalled(sig), alarm)
  }

  /** receive_test_result: the pipe is read and replaced by an empty one. */
  function ReceiveResult(w: World, wasError: bool): Flow<TestResult> {
    match Received(w.pipe)
    case None => Dead(w, Exited(2), false)
    case Some(r) => Live(w.(pipe := []), Construct(r, wasError))
  }

  // ---------- fixtures ----------

  /** One setup outside a child, with its own result. */
  function NoforkSetup(w: World, env: Env, call: Call, tcname: string, tname: string): Flow<TestResult> {
    var (w1, _) :- Say(w, env, Ctx(CTX_SETUP));
    var (w2, _) :- Perform(w1, env, call, false);
    var (w3, tr) :- ReceiveResult(w2, false);
    Live(w3, SetNoforkInfo(tr.(tcname := tcname, tname := tname, iter := 0, usec := -1)))
  }

  /** srunner_run_setup outside a child: stops at a failure. */
  function NoforkSetups(w: World, env: Env, fs: seq<Fixture>, role: Role, tcname: string, tname: string)
    : Flow<Option<TestResult>>
    decreases |fs|
  {
    if fs == [] then
      Live(w, None)
    else
      var (w1, tr) :- NoforkSetup(w, env, Call(role, fs[0]), tcname, tname);
      if tr.rtype != Pass then Live(w1, Some(tr))
      else NoforkSetups(w1, env, fs[1..], role, tcname, tname)
  }

  /** The fixtures of srunner_run_setup inside a child. */
  function ForkSetups(w: World, env: Env, fs: seq<Fixture>): Flow<bool>
    decreases |fs|
  {
    if fs == [] then
      Live(w, true)
    else
      var (w1, _) :- Perform(w, env, Call(CheckedSetup, fs[0]), true);
      ForkSetups(w1, env, fs[1..])
  }

  function OneTeardown(w: World, env: Env, call: Call, forked: bool): Flow<bool> {
    var (w1, _) :- Say(w, env, Ctx(CTX_TEARDOWN));
    Perform(w1, env, call, forked)
  }

  /** srunner_run_teardown: a failure skips the remaining ones. */
  function Teardowns(w: World, env: Env, fs: seq<Fixture>, role: Role, forked: bool): Flow<bool>
    decreases |fs|
  {
    if fs == [] then
      Live(w, true)
    else
      var (w1, returned) :- OneTeardown(w, env, Call(role, fs[0]), forked);
      if returned then Teardowns(w1, env, fs[1..], role, forked) else Live(w1, true)
  }

  // ---------- one test ----------

  function UsecOf(w: World, env: Env): int32 {
    env.did(w.next).usec
  }

  /** tcase_fn_start and the test itself. */
  function TestBody(w: World, env: Env, tf: TestFun, i: int, forked: bool): Flow<bool> {
    var (w1, _) :- Say(w, env, Ctx(CTX_TEST));
    var (w2, _) :- Say(w1, env, LocOf(tf.at));
    Perform(w2, env, Run(tf.fun, i), forked)
  }

  /** tcase_run_tfun_nofork once the setups have passed. */
  function NoforkBody(w: World, env: Env, tc: Case, tf: TestFun, i: int): Flow<TestResult> {
    var (w1, _) :- TestBody(w, env, tf, i, false);
    var (w2, _) :- Teardowns(w1, env, tc.chTeardowns, CheckedTeardown, false);
    var (w3, tr) :- ReceiveResult(w2, false);
    Live(w3, SetNoforkInfo(tr.(tcname := tc.name, tname := tf.name, iter := i, usec := UsecOf(w, env))))
  }

  function NoforkTest(w: World, env: Env, tc: Case, tf: TestFun, i: int): Flow<TestResult> {
    var (w1, failed) :- NoforkSetups(w, env, tc.chSetups, CheckedSetup, tc.name, "checked_setup");
    if failed.Some? then Live(w1, failed.value) else NoforkBody(w1, env, tc, tf, i)
  }

  /** The child process of tcase_run_tfun_fork, up to its exit. */
  function Child(w: World, env: Env, tc: Case, tf: TestFun, i: int): Flow<bool> {
    var (w1, _) :- Say(w, env, Ctx(CTX_SETUP));
    var (w2, _) :- ForkSetups(w1, env, tc.chSetups);
    var (w3, _) :- TestBody(w2, env, tf, i, true);
    var (w4, _) :- Teardowns(w3, env, tc.chTeardowns, CheckedTeardown, true);
    Say(w4, env, Duration(UsecOf(w2, env)))
  }

  function StatusOf(f: Flow<bool>): Status {
    if f.Live? then Exited(0) else f.how
  }

  function ForkTest(w: World, env: Env, tc: Case, tf: TestFun, i: int): Flow<TestResult> {
    var child := Child(w, env, tc, tf, i);
    var alarm := child.Dead? && child.alarm;
    var (w1, tr) :- ReceiveResult(child.w, WasError(StatusOf(child), tf.signal));
    Live(w1, SetForkInfo(tr.(tcname := tc.name, tname := tf.name, iter := i),
                         StatusOf(child), alarm, tf.signal, tf.allowedExit))
  }

  function OneTest(w: World, env: Env, tc: Case, tf: TestFun, i: int): Flow<TestResult> {
    if env.fork then ForkTest(w, env, tc, tf, i) else NoforkTest(w, env, tc, tf, i)
  }

  // ---------- a test case ----------

  /** srunner_add_failure. */
  function AddResult(w: World, tr: TestResult): World {
    w.(results := w.results + [tr],
       nChecked := w.nChecked + 1,
       nFailed := w.nFailed + if tr.rtype == Failure then 1 else 0,
       nErrors := w.nErrors + if tr.rtype == Error then 1 else 0)
  }

  function Log(w: World, e: Event): World {
    w.(events := w.events + [e])
  }

  /** One pass of the loop body of srunner_iterate_tcase_tfuns. */
  function Iteration(w: World, env: Env, tc: Case, tf: TestFun, i: int): Flow<bool> {
    var (w1, tr) :- OneTest(Log(w, StartTest(tc.name, tf.name)), env, tc, tf, i);
    Live(Log(AddResult(w1, tr), EndTest(tr)), true)
  }

  function Iterations(w: World, env: Env, tc: Case, tf: TestFun, i: int): Flow<bool>
    decreases tf.loopEnd - i, 1
  {
    if i >= tf.loopEnd then Live(w, true) else IterateFrom(w, env, tc, tf, i)
  }

  function IterateFrom(w: World, env: Env, tc: Case, tf: TestFun, i: int): Flow<bool>
    requires i < tf.loopEnd
    decreases tf.loopEnd - i, 0
  {
    var (w1, _) :- Iteration(w, env, tc, tf, i);
    Iterations(w1, env, tc, tf, i + 1)
  }

  function Tests(w: World, env: Env, tc: Case, tfs: seq<TestFun>): Flow<bool>
    decreases |tfs|
  {
    if tfs == [] then
      Live(w, true)
    else
      var (w1, _) :- Iterations(w, env, tc, tfs[0], tfs[0].loopStart);
      Tests(w1, env, tc, tfs[1..])
  }

  /** srunner_run_unchecked_setup: true when the tests may run. */
  function UncheckedSetups(w: World, env: Env, tc: Case): Flow<bool> {
    var (w1, failed) :- NoforkSetups(w, env, tc.unchSetups, UncheckedSetup, tc.name, "unchecked_setup");
    if failed.Some? then Live(AddResult(w1, failed.value), false) else Live(w1, true)
  }

  /** srunner_run_tcase. */
  function RunCase(w: World, env: Env, tc: Case): Flow<bool> {
    var (w1, ready) :- UncheckedSetups(w, env, tc);
    if !ready then
      Live(w1, true)
    else
      var (w2, _) :- Tests(w1, env, tc, tc.tests);
      Teardowns(w2, env, tc.unchTeardowns, UncheckedTeardown, env.fork)
  }
}
