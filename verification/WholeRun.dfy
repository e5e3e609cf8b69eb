/** The end-to-end statement: what the tests did determines what the runner reports,
    counts and logs, over any sequence of runs. */
module WholeRun {
  import opened Base
  import opened Results
  import opened TestRun
  import opened Expectations
  import opened SuiteRun
  import opened RunHistory
  import opened Logging
  import SuiteRunner

  /** For every script of the user's functions, in child processes or not: the run
      completes if and only if the forecast does, and then exactly the foretold functions
      were called, its results are exactly the foretold ones, the counters are right, the
      events are in order, and it checks as many tests as the TAP file numbers plus one for
      every unchecked setup that failed. */
  lemma ReportsWhatHappened(w: World, script: nat -> Act, max: nat, fork: bool, suites: seq<Suite>, f: Filter)
    requires SuiteRunner.Consistent(w)
    ensures
      var env := EnvOf(script, max, fork);
      var g, o := RunTagged(w, env, suites, f), RunOutlook(env, suites, f, w.next);
      && (g.Live? <==> o.Goes?)
      && (o.Goes? ==>
            && Covers(o.value, WantedSuites(suites, f), f) && SuitesCounted(o.value)
            && SuiteRunner.Consistent(g.w)
            && g.w.results == w.results + CasesResults(AllCases(o.value))
            && g.w.nChecked == w.nChecked + |Logged(AllCases(o.value))| + FailedSetups(AllCases(o.value))
            && g.w.events == w.events + RunEvents(o.value) && Moves(Begin, RunEvents(o.value)) == Done
            && g.w.next == o.k && g.w.calls == w.calls + RunCalls(env, suites, f, w.next))
  {
    var env := EnvOf(script, max, fork);
    EnvIsProper(script, max, fork);
    RunIsItsHistory(w, env, suites, f);
    var o := RunOutlook(env, suites, f, w.next);
    if o.Goes? {
      var cs := AllCases(o.value);
      CountedAll(o.value);
      ResultsJudged(cs);
      SuiteRunner.StaysConsistent(w, RunTagged(w, env, suites, f).w, CasesResults(cs), RunEvents(o.value));
      RunEventsInOrder(o.value);
      CheckedIsLoggedPlusFailedSetups(cs);
    }
  }

  lemma {:induction false} CountedAll(h: seq<SuiteHistory>)
    requires SuitesCounted(h)
    ensures AllCounted(AllCases(h))
    decreases |h|
  {
    if h != [] {
      CountedAll(h[1..]);
    }
  }

  lemma {:induction false} ResultsJudged(cs: seq<CaseRun>)
    requires AllCounted(cs)
    ensures AllJudged(CasesResults(cs))
    decreases |cs|
  {
    if cs != [] {
      ResultsJudged(cs[1..]);
      assert Counted(cs[0]);
    }
  }

  /** One call of srunner_run_tagged. */
  datatype Invocation = Invocation(script: nat -> Act, max: nat, fork: bool, suites: seq<Suite>, f: Filter)

  function RunAll(w: World, calls: seq<Invocation>): Flow<bool>
    decreases |calls|
  {
    if calls == [] then Live(w, true)
    else
      var c := calls[0];
      var (w1, _) :- RunTagged(w, EnvOf(c.script, c.max, c.fork), c.suites, c.f);
      RunAll(w1, calls[1..])
  }

  /** After any sequence of runs of one runner, the counters are the counts over its
      results, and every result is decided and has a message. */
  lemma {:induction false} CountersAlwaysRight(w: World, calls: seq<Invocation>)
    requires SuiteRunner.Consistent(w) && RunAll(w, calls).Live?
    ensures SuiteRunner.Consistent(RunAll(w, calls).w)
    decreases |calls|
  {
    if calls != [] {
      var c := calls[0];
      ReportsWhatHappened(w, c.script, c.max, c.fork, c.suites, c.f);
      CountersAlwaysRight(RunTagged(w, EnvOf(c.script, c.max, c.fork), c.suites, c.f).w, calls[1..]);
    }
  }
}
