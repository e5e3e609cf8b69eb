/** The runner of src/check_run.c as it works on its own state: messages go
    through the byte pipes, results and counters into its fields. */
module Runner {
  import opened Base
  import opened Codec
  import opened Receive
  import opened Results
  import opened TestRun
  import Messaging

  /** How a piece of code comes back to its caller, or ends its process. */
  datatype Go<+T> = Going(value: T) | Gone(how: Status, alarm: bool) {
    predicate IsFailure() {
      Gone?
    }

    function PropagateFailure<U>(): Go<U>
      requires Gone?
    {
      Gone(how, alarm)
    }

    function Extract(): T
      requires Going?
    {
      value
    }
  }

  /** The code came back as the flow says, leaving its world. */
  ghost predicate Follows<T>(r: Go<T>, w: World, f: Flow<T>) {
    w == f.w && r == match f case Live(_, v) => Going(v) case Dead(_, how, alarm) => Gone(how, alarm)
  }

  const EPRINTF: Go<bool> := Gone(Exited(2), false)

  class SRunner {
    /** What the user's functions will do, call by call. */
    const script: nat -> Act
    const max: nat
    const fork: bool
    const pipes: Messaging.Pipes

    var next: nat
    var calls: seq<Call>
    var results: seq<TestResult>
    var nChecked: int
    var nFailed: int
    var nErrors: int
    var events: seq<Event>

    /** The messages in the innermost pipe, and the pipes below it. */
    ghost var unread: seq<Msg>
    ghost var below: seq<Messaging.Pipe>

    ghost function TheEnv(): Env {
      EnvOf(script, max, fork)
    }

    ghost function TheWorld(): World
      reads this
    {
      World(unread, next, calls, results, nChecked, nFailed, nErrors, events)
    }

    /** The innermost pipe holds exactly the encoded unread messages. */
    ghost predicate Valid()
      reads this, pipes
    {
      && pipes.Valid()
      && 0 < max
      && AllWithin(unread, max) && AllPackable(unread)
      && pipes.Stack() == below + [EncodeAll(unread)]
    }

    /** Between runs: no pipe of its own is open. */
    ghost predicate Idle()
      reads this, pipes
    {
      && pipes.Valid()
      && 0 < max
      && unread == []
      && pipes.Stack() == below
    }

    /** A runner on the process's pipes, which an enclosing run may be using. */
    constructor (script: nat -> Act, max: nat, fork: bool, pipes: Messaging.Pipes)
      requires 0 < max && pipes.Valid()
      ensures Idle() && this.pipes == pipes && below == pipes.Stack()
      ensures TheWorld() == World([], 0, [], [], 0, 0, 0, [])
      ensures this.script == script && this.max == max && this.fork == fork
    {
      this.script, this.max, this.fork, this.pipes := script, max, fork, pipes;
      next, calls, results, events := 0, [], [], [];
      nChecked, nFailed, nErrors := 0, 0, 0;
      unread, below := [], pipes.Stack();
    }

    /** setup_messaging: only one run may be nested in another. */
    method SetupMessaging() returns (ok: bool)
      requires Idle()
      modifies pipes
      ensures ok <==> |below| < 2
      ensures if ok then Valid() else Idle()
    {
      var opened_ := pipes.SetupPipe();
      assert EncodeAll([]) == [];
      ok := opened_.Ok?;
    }

    /** teardown_messaging: whatever nobody read is gone. */
    method TeardownMessaging()
      requires Valid()
      modifies this`unread, pipes
      ensures Idle() && TheWorld() == old(TheWorld()).(pipe := [])
    {
      ghost var stack := pipes.Stack();
      assert stack[..|stack| - 1] == below;
      var closed := pipes.TeardownPipe();
      assert closed.Ok?;
      unread := [];
    }

    // ---------- messages ----------

    method Send(raw: RawMsg) returns (r: Go<bool>)
      requires Valid()
      modifies this, pipes
      ensures Valid() && below == old(below)
      ensures Follows(r, TheWorld(), Say(old(TheWorld()), TheEnv(), Denote(raw)))
    {
      var sent := pipes.SendInfo(raw, max);
      if sent.Err? {
        return EPRINTF;
      }
      ghost var m := Denote(raw);
      SentOne(below, unread, m, max);
      unread := unread + [m];
      r := Going(true);
    }

    /** receive_test_result, or eprintf. */
    method Receive(wasError: bool) returns (r: Go<TestResult>)
      requires Valid()
      modifies this, pipes
      ensures Valid() && below == old(below)
      ensures Follows(r, TheWorld(), ReceiveResult(old(TheWorld()), wasError))
    {
      ghost var all := below + [EncodeAll(unread)];
      ParseWhole(unread, 2 * max);
      assert all[|all| - 1] == EncodeAll(unread) && all[..|all| - 1] == below;
      var got := pipes.ReceiveTestResult(wasError, max);
      if got.Err? {
        return Gone(Exited(2), false);
      }
      unread := [];
      r := Going(got.value);
    }

    // ---------- user code ----------

    /** _mark_point for one of several points, those before it being sent. */
    method MarkPoint(ps: seq<Point>, i: nat, ghost w: World) returns (r: Go<bool>)
      requires Valid() && i < |ps| && TheWorld() == w.(pipe := w.pipe + Locs(ps[..i]))
      modifies this, pipes
      ensures Valid() && below == old(below)
      ensures Sends(ps[i], max) ==> TheWorld() == w.(pipe := w.pipe + Locs(ps[..i + 1])) && r == Going(true)
      ensures ps[..i + 1] == ps[..i] + [ps[i]]
      ensures !Sends(ps[i], max) ==> TheWorld() == old(TheWorld()) && r == EPRINTF
    {
      r := Send(RawLoc(Some(ps[i].file), ps[i].line));
      LocsSnoc(ps[..i], ps[i]);
      assert ps[..i + 1] == ps[..i] + [ps[i]];
      ConcatAssoc(w.pipe, Locs(ps[..i]), [LocOf(ps[i])]);
    }

    /** _mark_point for each point in turn, until one cannot be sent. */
    method MarkPoints(ps: seq<Point>) returns (r: Go<bool>)
      requires Valid()
      modifies this, pipes
      ensures Valid() && below == old(below)
      ensures
        var sent := SendablePoints(ps, max);
        && TheWorld() == old(TheWorld()).(pipe := old(unread) + Locs(sent))
        && r == if |sent| == |ps| then Going(true) else EPRINTF
    {
      assert old(unread) + Locs([]) == old(unread);
      for i := 0 to |ps|
        invariant Valid() && below == old(below)
        invariant forall p :: p in ps[..i] ==> Sends(p, max)
        invariant TheWorld() == old(TheWorld()).(pipe := old(unread) + Locs(ps[..i]))
      {
        var s := MarkPoint(ps, i, old(TheWorld()));
        if s.Gone? {
          PointsUpTo(ps, i, max);
          return s;
        }
      }
      assert ps[..|ps|] == ps;
      PointsUpTo(ps, |ps|, max);
      r := Going(true);
    }

    /** _ck_assert_failed: the location, the text, and then out of here. */
    method AssertFailed(at: Point, text: cstr, forked: bool) returns (r: Go<bool>)
      requires Valid()
      modifies this, pipes
      ensures Valid() && below == old(below)
      ensures
        var w := old(TheWorld());
        if !Sends(at, max) then TheWorld() == w && r == EPRINTF
        else if !Sendable(Fail(text), max) then TheWorld() == w.(pipe := w.pipe + [LocOf(at)]) && r == EPRINTF
        else
          && TheWorld() == w.(pipe := w.pipe + [LocOf(at), Fail(text)])
          && r == if forked then Gone(Exited(1), false) else Going(false)
    {
      var _ :- Send(RawLoc(Some(at.file), at.line));
      var _ :- Send(RawFail(Some(text)));
      assert old(unread) + [LocOf(at)] + [Fail(text)] == old(unread) + [LocOf(at), Fail(text)];
      if forked {
        return Gone(Exited(1), false);
      }
      r := Going(false);
    }

    /** Calling a fixture or a test function. */
    method CallUser(call: Call, forked: bool) returns (r: Go<bool>)
      requires Valid()
      modifies this, pipes
      ensures Valid() && below == old(below)
      ensures Follows(r, TheWorld(), Perform(old(TheWorld()), TheEnv(), call, forked))
    {
      var a := script(next);
      assert TheEnv().did(next) == Effective(a, max);
      next, calls := next + 1, calls + [call];
      SentInSteps(unread, a, max);
      var marked := MarkPoints(a.points);
      if marked.Gone? {
        return marked;
      }
      match a.end
      case Return => r := Going(true);
      case Exit(code) => r := Gone(Exited(code), false);
      case Die(sig, alarm) => r := Gone(Signalled(sig), alarm);
      case Assert(at, text) => r := AssertFailed(at, text, forked);
    }

    // ---------- fixtures ----------

    /** One setup fixture outside a child, with its own result. */
    method RunSetupNofork(call: Call, tcname: string, tname: string) returns (r: Go<TestResult>)
      requires Valid()
      modifies this, pipes
      ensures Valid() && below == old(below)
      ensures Follows(r, TheWorld(), NoforkSetup(old(TheWorld()), TheEnv(), call, tcname, tname))
    {
      var _ :- Send(RawCtx(CTX_SETUP));
      var _ :- CallUser(call, false);
      var tr :- Receive(false);
      r := Going(SetNoforkInfo(tr.(tcname := tcname, tname := tname, iter := 0, usec := -1)));
    }

    /** srunner_run_setup, in a child (`forked`) or not. */
    method RunSetup(fs: seq<Fixture>, role: Role, forked: bool, tcname: string, tname: string)
      returns (r: Go<Option<TestResult>>)
      requires Valid() && (forked ==> role == CheckedSetup)
      modifies this, pipes
      ensures Valid() && below == old(below)
      ensures !forked ==>
                Follows(r, TheWorld(), NoforkSetups(old(TheWorld()), TheEnv(), fs, role, tcname, tname))
      ensures forked ==>
                Follows(if r.Gone? then Gone(r.how, r.alarm) else Going(true), TheWorld(),
                        SetupsInChild(old(TheWorld()), TheEnv(), fs)) &&
                (r.Going? ==> r.value.None?)
    {
      if forked {
        var _ :- Send(RawCtx(CTX_SETUP));
      }
      ghost var env, w0 := TheEnv(), TheWorld();
      assert fs[0..] == fs;
      for i := 0 to |fs|
        invariant Valid() && below == old(below)
        invariant !forked ==> NoforkSetups(w0, env, fs, role, tcname, tname) ==
                              NoforkSetups(TheWorld(), env, fs[i..], role, tcname, tname)
        invariant forked ==> ForkSetups(w0, env, fs) == ForkSetups(TheWorld(), env, fs[i..])
      {
        assert fs[i..][0] == fs[i] && fs[i..][1..] == fs[i + 1..];
        if forked {
          var _ :- CallUser(Call(role, fs[i]), true);
        } else {
          var tr :- RunSetupNofork(Call(role, fs[i]), tcname, tname);
          if tr.rtype != Pass {
            return Going(Some(tr));
          }
        }
      }
      r := Going(None);
    }

    /** srunner_run_teardown: outside a child a failure jumps out of the loop. */
    method RunTeardown(fs: seq<Fixture>, role: Role, forked: bool) returns (r: Go<bool>)
      requires Valid()
      modifies this, pipes
      ensures Valid() && below == old(below)
      ensures Follows(r, TheWorld(), Teardowns(old(TheWorld()), TheEnv(), fs, role, forked))
    {
      ghost var env, w0 := TheEnv(), TheWorld();
      assert fs[0..] == fs;
      for i := 0 to |fs|
        invariant Valid() && below == old(below)
        invariant Teardowns(w0, env, fs, role, forked) == Teardowns(TheWorld(), env, fs[i..], role, forked)
      {
        assert fs[i..][0] == fs[i] && fs[i..][1..] == fs[i + 1..];
        var _ :- Send(RawCtx(CTX_TEARDOWN));
        var returned :- CallUser(Call(role, fs[i]), forked);
        if !returned {
          return Going(true);
        }
      }
      r := Going(true);
    }

    // ---------- one test ----------

    /** tcase_fn_start and the test function. */
    method RunBody(tf: TestFun, i: int, forked: bool) returns (r: Go<bool>)
      requires Valid()
      modifies this, pipes
      ensures Valid() && below == old(below)
      ensures Follows(r, TheWorld(), TestBody(old(TheWorld()), TheEnv(), tf, i, forked))
    {
      var _ :- Send(RawCtx(CTX_TEST));
      var _ :- Send(RawLoc(Some(tf.at.file), tf.at.line));
      r := CallUser(Run(tf.fun, i), forked);
    }

    method RunTfunNofork(tc: Case, tf: TestFun, i: int) returns (r: Go<TestResult>)
      requires Valid()
      modifies this, pipes
      ensures Valid() && below == old(below)
      ensures Follows(r, TheWorld(), NoforkTest(old(TheWorld()), TheEnv(), tc, tf, i))
    {
      var failed :- RunSetup(tc.chSetups, CheckedSetup, false, tc.name, "checked_setup");
      if failed.Some? {
        return Going(failed.value);
      }
      var usec := Elapsed(script, next, max);
      var _ :- RunBody(tf, i, false);
      var _ :- RunTeardown(tc.chTeardowns, CheckedTeardown, false);
      var tr :- Receive(false);
      r := Going(SetNoforkInfo(tr.(tcname := tc.name, tname := tf.name, iter := i, usec := usec)));
    }

    /** What the forked process does, up to exit. */
    method RunChild(tc: Case, tf: TestFun, i: int) returns (r: Go<bool>)
      requires Valid()
      modifies this, pipes
      ensures Valid() && below == old(below)
      ensures Follows(r, TheWorld(), Child(old(TheWorld()), TheEnv(), tc, tf, i))
    {
      var _ :- RunSetup(tc.chSetups, CheckedSetup, true, tc.name, "checked_setup");
      var usec := Elapsed(script, next, max);
      var _ :- RunBody(tf, i, true);
      var _ :- RunTeardown(tc.chTeardowns, CheckedTeardown, true);
      r := Send(RawDuration(usec));
    }

    /** tcase_run_tfun_fork: the parent waits, and reads what the child wrote. */
    method RunTfunFork(tc: Case, tf: TestFun, i: int) returns (r: Go<TestResult>)
      requires Valid()
      modifies this, pipes
      ensures Valid() && below == old(below)
      ensures Follows(r, TheWorld(), ForkTest(old(TheWorld()), TheEnv(), tc, tf, i))
    {
      var child := RunChild(tc, tf, i);
      var status := if child.Gone? then child.how else Exited(0);
      var alarm := child.Gone? && child.alarm;
      var tr :- Receive(WasError(status, tf.signal));
      r := Going(SetForkInfo(tr.(tcname := tc.name, tname := tf.name, iter := i),
                             status, alarm, tf.signal, tf.allowedExit));
    }

    // ---------- a test case ----------

    /** srunner_add_failure. */
    method AddFailure(tr: TestResult)
      requires Valid()
      modifies this
      ensures Valid() && below == old(below)
      ensures TheWorld() == AddResult(old(TheWorld()), tr)
    {
      results := results + [tr];
      nChecked := nChecked + 1;
      if tr.rtype == Failure {
        nFailed := nFailed + 1;
      } else if tr.rtype == Error {
        nErrors := nErrors + 1;
      }
    }

    method SendEvent(e: Event)
      requires Valid()
      modifies this
      ensures Valid() && below == old(below)
      ensures TheWorld() == Log(old(TheWorld()), e)
    {
      events := events + [e];
    }

    /** srunner_run_init: the pipe, then the events that open the log. */
    method RunInit() returns (ok: bool)
      requires Idle()
      modifies this, pipes
      ensures below == old(below) && (ok <==> |below| < 2)
      ensures !ok ==> TheWorld() == old(TheWorld())
      ensures ok ==> Valid() && TheWorld() == Log(Log(old(TheWorld()).(pipe := []), InitLog), StartRunner)
    {
      ok := SetupMessaging();
      if ok {
        SendEvent(InitLog);
        SendEvent(StartRunner);
      }
    }

    /** srunner_run_end: the events that close the log, then the pipe. */
    method RunEnd()
      requires Valid()
      modifies this, pipes
      ensures Idle() && below == old(below)
      ensures TheWorld() == Log(Log(old(TheWorld()).(pipe := []), EndRunner), EndLog)
    {
      SendEvent(EndRunner);
      SendEvent(EndLog);
      TeardownMessaging();
    }

    method RunIteration(tc: Case, tf: TestFun, i: int) returns (r: Go<bool>)
      requires Valid()
      modifies this, pipes
      ensures Valid() && below == old(below)
      ensures Follows(r, TheWorld(), Iteration(old(TheWorld()), TheEnv(), tc, tf, i))
    {
      SendEvent(StartTest(tc.name, tf.name));
      var tr: TestResult;
      if fork {
        tr :- RunTfunFork(tc, tf, i);
      } else {
        tr :- RunTfunNofork(tc, tf, i);
      }
      AddFailure(tr);
      SendEvent(EndTest(tr));
      r := Going(true);
    }

    /** srunner_iterate_tcase_tfuns: every test, for every value of its loop variable. */
    method IterateTfuns(tc: Case) returns (r: Go<bool>)
      requires Valid()
      modifies this, pipes
      ensures Valid() && below == old(below)
      ensures Follows(r, TheWorld(), Tests(old(TheWorld()), TheEnv(), tc, tc.tests))
    {
      ghost var env, w0 := TheEnv(), TheWorld();
      assert tc.tests[0..] == tc.tests;
      for k := 0 to |tc.tests|
        invariant Valid() && below == old(below)
        invariant Tests(w0, env, tc, tc.tests) == Tests(TheWorld(), env, tc, tc.tests[k..])
      {
        assert tc.tests[k..][0] == tc.tests[k] && tc.tests[k..][1..] == tc.tests[k + 1..];
        var _ :- RunLoop(tc, tc.tests[k]);
      }
      r := Going(true);
    }

    method RunLoop(tc: Case, tf: TestFun) returns (r: Go<bool>)
      requires Valid()
      modifies this, pipes
      ensures Valid() && below == old(below)
      ensures Follows(r, TheWorld(), Iterations(old(TheWorld()), TheEnv(), tc, tf, tf.loopStart))
    {
      r := RunRounds(tc, tf, Iterations(TheWorld(), TheEnv(), tc, tf, tf.loopStart));
    }

    method RunRounds(tc: Case, tf: TestFun, ghost goal: Flow<bool>) returns (r: Go<bool>)
      requires Valid() && Awaits(tc, tf, tf.loopStart, Going(true), goal)
      modifies this, pipes
      ensures Valid() && below == old(below)
      ensures Follows(r, TheWorld(), goal)
    {
      var i := tf.loopStart;
      r := Going(true);
      while i < tf.loopEnd && r.Going?
        invariant Valid() && below == old(below)
        invariant Awaits(tc, tf, i, r, goal)
        decreases tf.loopEnd - i
      {
        r := RunOnce(tc, tf, i, goal);
        i := i + 1;
      }
    }

    /** The rounds from `i` on, or the end already met, will make it `goal`. */
    ghost predicate Awaits(tc: Case, tf: TestFun, i: int, r: Go<bool>, goal: Flow<bool>)
      reads this
    {
      if r.Gone? then Follows(r, TheWorld(), goal)
      else r.value && Iterations(TheWorld(), TheEnv(), tc, tf, i) == goal
    }

    /** One round of the loop, seen from the rounds still to come. */
    method RunOnce(tc: Case, tf: TestFun, i: int, ghost goal: Flow<bool>) returns (r: Go<bool>)
      requires Valid() && i < tf.loopEnd
      requires Awaits(tc, tf, i, Going(true), goal)
      modifies this, pipes
      ensures Valid() && below == old(below)
      ensures Awaits(tc, tf, i + 1, r, goal)
    {
      UnrollLoop(TheWorld(), TheEnv(), tc, tf, i);
      r := RunIteration(tc, tf, i);
    }

    /** srunner_run_tcase. */
    method RunTcase(tc: Case) returns (r: Go<bool>)
      requires Valid()
      modifies this, pipes
      ensures Valid() && below == old(below)
      ensures Follows(r, TheWorld(), RunCase(old(TheWorld()), TheEnv(), tc))
    {
      var failed :- RunSetup(tc.unchSetups, UncheckedSetup, false, tc.name, "unchecked_setup");
      if failed.Some? {
        AddFailure(failed.value);
        return Going(true);
      }
      var _ :- IterateTfuns(tc);
      r := RunTeardown(tc.unchTeardowns, UncheckedTeardown, fork);
    }
  }

  lemma UnrollLoop(w: World, env: Env, tc: Case, tf: TestFun, i: int)
    requires i < tf.loopEnd
    ensures
      var one := Iteration(w, env, tc, tf, i);
      Iterations(w, env, tc, tf, i) ==
        if one.Dead? then one else Iterations(one.w, env, tc, tf, i + 1)
  {
    assert Iterations(w, env, tc, tf, i) == IterateFrom(w, env, tc, tf, i);
  }

  /** The checked setups of a child, the context announced first. */
  function SetupsInChild(w: World, env: Env, fs: seq<Fixture>): Flow<bool> {
    var (w1, _) :- Say(w, env, Ctx(CTX_SETUP));
    ForkSetups(w1, env, fs)
  }

  /** The clock readings around call number `n`. */
  function Elapsed(script: nat -> Act, n: nat, max: nat): int32 {
    Effective(script(n), max).usec
  }

  /** Sending point after point, and then the assertion, sends what the execution amounts to. */
  lemma SentInSteps(pipe: seq<Msg>, a: Act, max: nat)
    ensures
      var e := Effective(a, max);
      var ps := SendablePoints(a.points, max);
      var marked := pipe + Locs(ps);
      if |ps| < |a.points| then
        e.end == Exit(2) && pipe + Sent(e) == marked
      else if !a.end.Assert? then
        e == a && pipe + Sent(e) == marked
      else if !Sends(a.end.at, max) then
        e.end == Exit(2) && pipe + Sent(e) == marked
      else if !Sendable(Fail(a.end.text), max) then
        e.end == Exit(2) && pipe + Sent(e) == marked + [LocOf(a.end.at)]
      else
        e == a && pipe + Sent(e) == marked + [LocOf(a.end.at), Fail(a.end.text)]
  {
    var e := Effective(a, max);
    var ps := SendablePoints(a.points, max);
    assert Locs(e.points) + [] == Locs(e.points);
    if a.end.Assert? {
      var at := LocOf(a.end.at);
      ConcatAssoc(pipe, Locs(ps), [at, Fail(a.end.text)]);
      ConcatAssoc(pipe, Locs(ps), [at]);
      LocsSnoc(ps, a.end.at);
    }
  }

  lemma PointsUpTo(ps: seq<Point>, i: nat, max: nat)
    requires i <= |ps| && (forall p :: p in ps[..i] ==> Sends(p, max))
    requires i < |ps| ==> !Sends(ps[i], max)
    ensures SendablePoints(ps, max) == ps[..i]
  {
    var r := SendablePoints(ps, max);
    assert r == ps[..|r|];
    assert forall k :: 0 <= k < i ==> ps[..i][k] == ps[k];
    assert forall k :: 0 <= k < |r| ==> r[k] == ps[k];
    assert |r| == i;
  }

  lemma LocsSnoc(ps: seq<Point>, p: Point)
    ensures Locs(ps + [p]) == Locs(ps) + [LocOf(p)]
  {
  }

  /** Sending appends the message to what is unread. */
  lemma SentOne(below: seq<Messaging.Pipe>, unread: seq<Msg>, m: Msg, max: nat)
    requires AllPackable(unread) && AllWithin(unread, max) && Sendable(m, max)
    ensures AllPackable(unread + [m]) && AllWithin(unread + [m], max)
    ensures Messaging.Apply(below + [EncodeAll(unread)], Messaging.Op.Send(m), max)
            == Some(below + [EncodeAll(unread + [m])])
  {
    var stack := below + [EncodeAll(unread)];
    assert stack[..|stack| - 1] == below && stack[|stack| - 1] == EncodeAll(unread);
    EncodeOne(unread, m);
  }
}
