/** Whole runs of a suite runner: which cases run, what is added to the results
    and counters, and which events are logged. */
module SuiteRun {
  import opened Base
  import opened Codec
  import opened Receive
  import opened Streams
  import opened Results
  import opened TestRun
  import opened Expectations
  import Forecast
  import opened Reports
  import opened ForkReports
  import opened UserCalls
  import opened Tags

  datatype TaggedCase = TaggedCase(tc: Case, tags: seq<string>)

  datatype Suite = Suite(name: string, cases: seq<TaggedCase>)

  /** The selection of srunner_run_tagged, after the environment was consulted. */
  datatype Filter = Filter(
    sname: Option<string>, tcname: Option<string>, includeTags: Option<string>, excludeTags: Option<string>)

  // ---------- selection ----------

  /** Some word of the tag string is a tag of the case. */
  predicate Tagged(c: TaggedCase, tagString: string) {
    exists i :: 0 <= i < |c.tags| && c.tags[i] in Words(tagString)
  }

  predicate SuiteWanted(s: Suite, f: Filter) {
    && (f.sname.Some? ==> f.sname.value == s.name)
    && (f.tcname.Some? ==> exists i :: 0 <= i < |s.cases| && s.cases[i].tc.name == f.tcname.value)
  }

  predicate CaseWanted(c: TaggedCase, f: Filter) {
    && (f.tcname.Some? ==> f.tcname.value == c.tc.name)
    && (f.includeTags.Some? ==> Tagged(c, f.includeTags.value))
    && (f.excludeTags.Some? ==> !Tagged(c, f.excludeTags.value))
  }

  /** The cases of a suite that are run, in order. */
  function WantedCases(cases: seq<TaggedCase>, f: Filter): (r: seq<Case>)
    decreases |cases|
  {
    if cases == [] then []
    else (if CaseWanted(cases[0], f) then [cases[0].tc] else []) + WantedCases(cases[1..], f)
  }

  /** The suites that are run, in order. */
  function WantedSuites(suites: seq<Suite>, f: Filter): seq<Suite>
    decreases |suites|
  {
    if suites == [] then []
    else (if SuiteWanted(suites[0], f) then [suites[0]] else []) + WantedSuites(suites[1..], f)
  }

  /** A case is run if and only if its name is the one asked for, one of its tags stands in
      the include string, and none stands in the exclude string. */
  lemma CaseWantedIff(c: TaggedCase, f: Filter)
    ensures CaseWanted(c, f) <==>
            && (f.tcname.Some? ==> f.tcname.value == c.tc.name)
            && (f.includeTags.Some? ==> exists tag :: tag in c.tags && Stands(f.includeTags.value, tag))
            && (f.excludeTags.Some? ==> forall tag :: tag in c.tags ==> !Stands(f.excludeTags.value, tag))
  {
    if f.includeTags.Some? {
      TaggedIff(c, f.includeTags.value);
    }
    if f.excludeTags.Some? {
      TaggedIff(c, f.excludeTags.value);
    }
  }

  lemma TaggedIff(c: TaggedCase, tagString: string)
    ensures Tagged(c, tagString) <==> exists tag :: tag in c.tags && Stands(tagString, tag)
  {
    if Tagged(c, tagString) {
      var i :| 0 <= i < |c.tags| && c.tags[i] in Words(tagString);
      WordsAreDelimited(tagString, c.tags[i]);
      assert c.tags[i] in c.tags;
    }
    if exists tag :: tag in c.tags && Stands(tagString, tag) {
      var tag :| tag in c.tags && Stands(tagString, tag);
      WordsAreDelimited(tagString, tag);
      var i :| 0 <= i < |c.tags| && c.tags[i] == tag;
    }
  }

  lemma {:induction false} WantedCasesAppend(a: seq<TaggedCase>, b: seq<TaggedCase>, f: Filter)
    ensures WantedCases(a + b, f) == WantedCases(a, f) + WantedCases(b, f)
    decreases |a|
  {
    if a == [] {
      assert a + b == b;
    } else {
      assert (a + b)[0] == a[0] && (a + b)[1..] == a[1..] + b;
      WantedCasesAppend(a[1..], b, f);
      ConcatAssoc(if CaseWanted(a[0], f) then [a[0].tc] else [], WantedCases(a[1..], f), WantedCases(b, f));
    }
  }

  /** A case is run if and only if it is wanted, once, behind those wanted before it in the list and
      before those wanted behind it. */
  lemma WantedCaseAt(cases: seq<TaggedCase>, f: Filter, j: nat)
    requires j < |cases|
    ensures WantedCases(cases, f) ==
            WantedCases(cases[..j], f)
            + ((if CaseWanted(cases[j], f) then [cases[j].tc] else []) + WantedCases(cases[j + 1..], f))
  {
    var here, rest := cases[j], cases[j..];
    assert cases == cases[..j] + rest && rest[0] == here && rest[1..] == cases[j + 1..];
    WantedCasesAppend(cases[..j], rest, f);
  }

  lemma {:induction false} WantedSuitesAppend(a: seq<Suite>, b: seq<Suite>, f: Filter)
    ensures WantedSuites(a + b, f) == WantedSuites(a, f) + WantedSuites(b, f)
    decreases |a|
  {
    if a == [] {
      assert a + b == b;
    } else {
      assert (a + b)[0] == a[0] && (a + b)[1..] == a[1..] + b;
      WantedSuitesAppend(a[1..], b, f);
      ConcatAssoc(if SuiteWanted(a[0], f) then [a[0]] else [], WantedSuites(a[1..], f), WantedSuites(b, f));
    }
  }

  /** The same for suites. */
  lemma WantedSuiteAt(suites: seq<Suite>, f: Filter, j: nat)
    requires j < |suites|
    ensures WantedSuites(suites, f) ==
            WantedSuites(suites[..j], f)
            + ((if SuiteWanted(suites[j], f) then [suites[j]] else []) + WantedSuites(suites[j + 1..], f))
  {
    var here, rest := suites[j], suites[j..];
    assert suites == suites[..j] + rest && rest[0] == here && rest[1..] == suites[j + 1..];
    WantedSuitesAppend(suites[..j], rest, f);
  }

  // ---------- the run ----------

  function RunCases(w: World, env: Env, cases: seq<TaggedCase>, f: Filter): Flow<bool>
    decreases |cases|, 1
  {
    if cases == [] then
      Live(w, true)
    else if !CaseWanted(cases[0], f) then
      RunCases(w, env, cases[1..], f)
    else
      RunCasesFrom(w, env, cases, f)
  }

  function RunCasesFrom(w: World, env: Env, cases: seq<TaggedCase>, f: Filter): Flow<bool>
    requires cases != []
    decreases |cases|, 0
  {
    var (w1, _) :- RunCase(w, env, cases[0].tc);
    RunCases(w1, env, cases[1..], f)
  }

  function RunSuite(w: World, env: Env, s: Suite, f: Filter): Flow<bool> {
    var (w1, _) :- RunCases(Log(w, StartSuite(s.name)), env, s.cases, f);
    Live(Log(w1, EndSuite(s.name)), true)
  }

  function RunSuites(w: World, env: Env, suites: seq<Suite>, f: Filter): Flow<bool>
    decreases |suites|
  {
    if suites == [] then
      Live(w, true)
    else if !SuiteWanted(suites[0], f) then
      RunSuites(w, env, suites[1..], f)
    else
      var (w1, _) :- RunSuite(w, env, suites[0], f);
      RunSuites(w1, env, suites[1..], f)
  }

  /** srunner_run_tagged: a fresh pipe, the events around the suites, and the
      pipe closed with whatever nobody read. */
  function RunTagged(w: World, env: Env, suites: seq<Suite>, f: Filter): Flow<bool> {
    var start := Log(Log(w.(pipe := []), InitLog), StartRunner);
    var (w1, _) :- RunSuites(start, env, suites, f);
    Live(Log(Log(w1.(pipe := []), EndRunner), EndLog), true)
  }

  // ---------- histories ----------

  datatype SuiteHistory = SuiteHistory(name: string, cases: seq<CaseRun>)

  /** A result that was decided, with a message. */
  predicate Judged(tr: TestResult) {
    tr.rtype != NoResult && tr.note.Some?
  }

  predicate AllJudged(trs: seq<TestResult>) {
    forall i :: 0 <= i < |trs| ==> Judged(trs[i])
  }

  /** One result for a failed unchecked setup, and otherwise one per test and loop value. */
  predicate Counted(c: CaseRun) {
    && AllJudged(c.results)
    && |c.results| == if c.ready then |Items(c.tc.tests)| else 1
  }

  function TestEvents(tc: Case, items: seq<Item>, trs: seq<TestResult>): seq<Event>
    requires |items| == |trs|
    decreases |items|
  {
    if items == [] then []
    else [StartTest(tc.name, items[0].tf.name), EndTest(trs[0])] + TestEvents(tc, items[1..], trs[1..])
  }

  function CaseEvents(c: CaseRun): seq<Event>
    requires Counted(c)
  {
    if c.ready then TestEvents(c.tc, Items(c.tc.tests), c.results) else []
  }

  // ---------- counters ----------

  function Tally(trs: seq<TestResult>, t: ResultType): nat
    decreases |trs|
  {
    if trs == [] then 0 else (if trs[0].rtype == t then 1 else 0) + Tally(trs[1..], t)
  }

  lemma {:induction false} TallyAppend(a: seq<TestResult>, b: seq<TestResult>, t: ResultType)
    ensures Tally(a + b, t) == Tally(a, t) + Tally(b, t)
    decreases |a|
  {
    if a == [] {
      assert a + b == b;
    } else {
      assert (a + b)[0] == a[0] && (a + b)[1..] == a[1..] + b;
      TallyAppend(a[1..], b, t);
    }
  }

  /** From `w` to `w'` exactly these results were counted and these events logged. */
  predicate Added(w: World, w': World, trs: seq<TestResult>, events: seq<Event>) {
    && w'.results == w.results + trs
    && w'.events == w.events + events
    && w'.nChecked == w.nChecked + |trs|
    && w'.nFailed == w.nFailed + Tally(trs, Failure)
    && w'.nErrors == w.nErrors + Tally(trs, Error)
  }

  lemma AddedNothing(w: World, w': World)
    requires w'.results == w.results && w'.events == w.events
    requires w'.nChecked == w.nChecked && w'.nFailed == w.nFailed && w'.nErrors == w.nErrors
    ensures Added(w, w', [], [])
  {
    assert w.results + [] == w.results && w.events + [] == w.events;
  }

  lemma AddedOne(w: World, w1: World, tr: TestResult)
    requires OnlyRan(w, w1)
    ensures Added(w, AddResult(w1, tr), [tr], [])
  {
    assert [tr][1..] == [];
    assert Tally([tr], Failure) == if tr.rtype == Failure then 1 else 0;
    assert Tally([tr], Error) == if tr.rtype == Error then 1 else 0;
    assert w.events + [] == w.events;
  }

  lemma AddedTwice(w: World, w1: World, w2: World, a: seq<TestResult>, b: seq<TestResult>, d: seq<Event>, e: seq<Event>)
    requires Added(w, w1, a, d) && Added(w1, w2, b, e)
    ensures Added(w, w2, a + b, d + e)
  {
    ConcatAssoc(w.results, a, b);
    ConcatAssoc(w.events, d, e);
    TallyAppend(a, b, Failure);
    TallyAppend(a, b, Error);
  }

  // ---------- every forecast result is decided ----------

  lemma TestJudged(env: Env, tc: Case, tf: TestFun, i: int, k: nat, mood: Mood)
    ensures
      var o := Forecast.Test(env, tc, tf, i, k, mood);
      o.Goes? ==> Judged(o.value)
  {
  }

  lemma {:induction false} TestsJudged(env: Env, tc: Case, items: seq<Item>, k: nat, mood: Mood)
    ensures
      var o := Forecast.Tests(env, tc, items, k, mood);
      o.Goes? ==> AllJudged(o.value)
    decreases |items|
  {
    if items != [] {
      TestJudged(env, tc, items[0].tf, items[0].i, k, mood);
      var one := Forecast.Test(env, tc, items[0].tf, items[0].i, k, mood);
      if one.Goes? {
        TestsJudged(env, tc, items[1..], one.k, one.mood);
      }
    }
  }

  lemma CaseJudged(env: Env, tc: Case, k: nat, mood: Mood)
    ensures
      var o := Forecast.CaseOf(env, tc, k, mood);
      o.Goes? ==> Counted(o.value)
  {
    var s := Forecast.Setups(env, |tc.unchSetups|, k, mood, tc.name, "unchecked_setup");
    if s.Goes? && s.value.None? {
      TestsJudged(env, tc, Items(tc.tests), s.k, s.mood);
    }
  }

  // ---------- tests ----------

  /** The results foretold for these items, and no others, were added with their events,
      and the user functions called are these. */
  ghost predicate Ran(w: World, env: Env, tc: Case, items: seq<Item>, f: Flow<bool>, o: Outlook<seq<TestResult>>,
                      calls: seq<Call>) {
    && (f.Live? <==> o.Goes?)
    && (o.Goes? ==>
          && |o.value| == |items|
          && Added(w, f.w, o.value, TestEvents(tc, items, o.value))
          && f.w.next == o.k && Bears(f.w, env, o.mood) && f.w.calls == w.calls + calls)
  }

  lemma {:induction false} TestEventsAppend(
    tc: Case, a: seq<Item>, b: seq<Item>, x: seq<TestResult>, y: seq<TestResult>)
    requires |a| == |x| && |b| == |y|
    ensures TestEvents(tc, a + b, x + y) == TestEvents(tc, a, x) + TestEvents(tc, b, y)
    decreases |a|
  {
    if a == [] {
      assert a + b == b && x + y == y;
    } else {
      assert (a + b)[0] == a[0] && (a + b)[1..] == a[1..] + b;
      assert (x + y)[0] == x[0] && (x + y)[1..] == x[1..] + y;
      TestEventsAppend(tc, a[1..], b, x[1..], y);
      ConcatAssoc([StartTest(tc.name, a[0].tf.name), EndTest(x[0])],
                  TestEvents(tc, a[1..], x[1..]), TestEvents(tc, b, y));
    }
  }

  /** One outlook after another. */
  function ThenTests(a: Outlook<seq<TestResult>>, b: Outlook<seq<TestResult>>): Outlook<seq<TestResult>> {
    if a.Ends? || b.Ends? then Ends else Goes(a.value + b.value, b.k, b.mood)
  }

  lemma {:induction false} TestsAppend(env: Env, tc: Case, a: seq<Item>, b: seq<Item>, k: nat, mood: Mood)
    ensures
      var x := Forecast.Tests(env, tc, a, k, mood);
      Forecast.Tests(env, tc, a + b, k, mood) ==
        if x.Ends? then Ends else ThenTests(x, Forecast.Tests(env, tc, b, x.k, x.mood))
    decreases |a|
  {
    if a == [] {
      assert a + b == b;
      var y := Forecast.Tests(env, tc, b, k, mood);
      assert y.Goes? ==> [] + y.value == y.value;
    } else {
      assert (a + b)[0] == a[0] && (a + b)[1..] == a[1..] + b;
      var one := Forecast.Test(env, tc, a[0].tf, a[0].i, k, mood);
      if one.Goes? {
        TestsAppend(env, tc, a[1..], b, one.k, one.mood);
        var x := Forecast.Tests(env, tc, a[1..], one.k, one.mood);
        if x.Goes? {
          var y := Forecast.Tests(env, tc, b, x.k, x.mood);
          if y.Goes? {
            ConcatAssoc([one.value], x.value, y.value);
          }
        }
      }
    }
  }

  lemma {:induction false} TestsCallsAppend(env: Env, tc: Case, a: seq<Item>, b: seq<Item>, k: nat, mood: Mood)
    ensures
      var x := Forecast.Tests(env, tc, a, k, mood);
      Forecast.TestsCalls(env, tc, a + b, k, mood) ==
        Forecast.TestsCalls(env, tc, a, k, mood)
        + if x.Goes? then Forecast.TestsCalls(env, tc, b, x.k, x.mood) else []
    decreases |a|
  {
    if a == [] {
      assert a + b == b;
      var y := Forecast.TestsCalls(env, tc, b, k, mood);
      assert [] + y == y;
    } else {
      assert (a + b)[0] == a[0] && (a + b)[1..] == a[1..] + b;
      var one := Forecast.Test(env, tc, a[0].tf, a[0].i, k, mood);
      var first := Forecast.TestCalls(env, tc, a[0].tf, a[0].i, k, mood);
      if one.Goes? {
        TestsCallsAppend(env, tc, a[1..], b, one.k, one.mood);
        var x := Forecast.Tests(env, tc, a[1..], one.k, one.mood);
        ConcatAssoc(first, Forecast.TestsCalls(env, tc, a[1..], one.k, one.mood),
                    if x.Goes? then Forecast.TestsCalls(env, tc, b, x.k, x.mood) else []);
      } else {
        assert first + [] + [] == first + [];
      }
    }
  }

  lemma RanTwice(w: World, env: Env, tc: Case, a: seq<Item>, b: seq<Item>,
                 f: Flow<bool>, x: Outlook<seq<TestResult>>, c: seq<Call>,
                 g: Flow<bool>, y: Outlook<seq<TestResult>>, d: seq<Call>)
    requires Ran(w, env, tc, a, f, x, c) && (f.Live? ==> Ran(f.w, env, tc, b, g, y, d))
    ensures Ran(w, env, tc, a + b, Then(f, g), if x.Ends? then Ends else ThenTests(x, y), c + d)
  {
    if f.Live? && g.Live? {
      ConcatAssoc(w.calls, c, d);
      TestEventsAppend(tc, a, b, x.value, y.value);
      AddedTwice(w, f.w, g.w, x.value, y.value, TestEvents(tc, a, x.value), TestEvents(tc, b, y.value));
    }
  }

  lemma RanNone(w: World, env: Env, tc: Case, mood: Mood)
    requires Bears(w, env, mood)
    ensures Ran(w, env, tc, [], Live(w, true), Goes([], w.next, mood), [])
  {
    AddedNothing(w, w);
    assert w.calls + [] == w.calls;
  }

  lemma OneForetold(env: Env, tc: Case, tf: TestFun, i: int, k: nat, mood: Mood)
    ensures
      var o := Forecast.Test(env, tc, tf, i, k, mood);
      Forecast.Tests(env, tc, [Item(tf, i)], k, mood) == if o.Ends? then Ends else Goes([o.value], o.k, o.mood)
    ensures Forecast.TestsCalls(env, tc, [Item(tf, i)], k, mood) == Forecast.TestCalls(env, tc, tf, i, k, mood)
  {
    var items := [Item(tf, i)];
    assert items[1..] == [];
    var o := Forecast.Test(env, tc, tf, i, k, mood);
    if o.Goes? {
      assert Forecast.Tests(env, tc, items[1..], o.k, o.mood) == Goes([], o.k, o.mood);
      assert [o.value] + [] == [o.value];
      assert Forecast.TestsCalls(env, tc, items[1..], o.k, o.mood) == [];
    }
    var calls := Forecast.TestCalls(env, tc, tf, i, k, mood);
    assert calls + [] == calls;
  }

  lemma OneTestsEvents(tc: Case, tf: TestFun, i: int, tr: TestResult)
    ensures TestEvents(tc, [Item(tf, i)], [tr]) == [StartTest(tc.name, tf.name), EndTest(tr)]
  {
    assert [Item(tf, i)][1..] == [] && [tr][1..] == [];
    assert TestEvents(tc, [], []) == [];
    assert [StartTest(tc.name, tf.name), EndTest(tr)] + [] == [StartTest(tc.name, tf.name), EndTest(tr)];
  }

  /** One pass of the loop body: one result, the one foretold, and its two events. */
  lemma RanOne(w: World, env: Env, tc: Case, tf: TestFun, i: int, mood: Mood)
    requires Bears(w, env, mood)
    ensures Ran(w, env, tc, [Item(tf, i)], Iteration(w, env, tc, tf, i),
                Forecast.Tests(env, tc, [Item(tf, i)], w.next, mood),
                Forecast.TestsCalls(env, tc, [Item(tf, i)], w.next, mood))
  {
    var w0 := Log(w, StartTest(tc.name, tf.name));
    TestReport(w0, env, tc, tf, i, mood);
    OneForetold(env, tc, tf, i, w.next, mood);
    Recorded(w, env, tc, tf, i, OneTest(w0, env, tc, tf, i), Forecast.Test(env, tc, tf, i, w.next, mood),
             Forecast.TestCalls(env, tc, tf, i, w.next, mood));
  }

  /** What follows a test: its result is added and its end announced. */
  function ThenRecord(f: Flow<TestResult>): Flow<bool> {
    if f.Dead? then f.PropagateFailure() else Live(Log(AddResult(f.w, f.value), EndTest(f.value)), true)
  }

  lemma Recorded(w: World, env: Env, tc: Case, tf: TestFun, i: int, f: Flow<TestResult>, o: Outlook<TestResult>,
                 calls: seq<Call>)
    requires Foretold(Log(w, StartTest(tc.name, tf.name)), env, f, o) && (f.Live? ==> f.w.calls == w.calls + calls)
    ensures Ran(w, env, tc, [Item(tf, i)], ThenRecord(f), if o.Ends? then Ends else Goes([o.value], o.k, o.mood), calls)
  {
    if o.Goes? {
      var tr := o.value;
      AddedOne(Log(w, StartTest(tc.name, tf.name)), f.w, tr);
      assert w.events + [StartTest(tc.name, tf.name)] + [EndTest(tr)] ==
             w.events + [StartTest(tc.name, tf.name), EndTest(tr)];
      OneTestsEvents(tc, tf, i, tr);
    }
  }

  lemma {:induction false} IterationsRun(w: World, env: Env, tc: Case, tf: TestFun, i: int, mood: Mood)
    requires Bears(w, env, mood)
    ensures Ran(w, env, tc, LoopItems(tf, i), Iterations(w, env, tc, tf, i),
                Forecast.Tests(env, tc, LoopItems(tf, i), w.next, mood),
                Forecast.TestsCalls(env, tc, LoopItems(tf, i), w.next, mood))
    decreases tf.loopEnd - i
  {
    if i >= tf.loopEnd {
      RanNone(w, env, tc, mood);
    } else {
      var one, rest := [Item(tf, i)], LoopItems(tf, i + 1);
      RanOne(w, env, tc, tf, i, mood);
      TestsAppend(env, tc, one, rest, w.next, mood);
      TestsCallsAppend(env, tc, one, rest, w.next, mood);
      var f, x := Iteration(w, env, tc, tf, i), Forecast.Tests(env, tc, one, w.next, mood);
      if f.Live? {
        IterationsRun(f.w, env, tc, tf, i + 1, x.mood);
        RanTwice(w, env, tc, one, rest, f, x, Forecast.TestsCalls(env, tc, one, w.next, mood),
                 Iterations(f.w, env, tc, tf, i + 1), Forecast.Tests(env, tc, rest, x.k, x.mood),
                 Forecast.TestsCalls(env, tc, rest, x.k, x.mood));
      }
      assert Iterations(w, env, tc, tf, i) == IterateFrom(w, env, tc, tf, i) ==
             Then(f, Iterations(f.w, env, tc, tf, i + 1));
    }
  }

  lemma {:induction false} TestsRun(w: World, env: Env, tc: Case, tfs: seq<TestFun>, mood: Mood)
    requires Bears(w, env, mood)
    ensures Ran(w, env, tc, Items(tfs), Tests(w, env, tc, tfs), Forecast.Tests(env, tc, Items(tfs), w.next, mood),
                Forecast.TestsCalls(env, tc, Items(tfs), w.next, mood))
    decreases |tfs|
  {
    if tfs == [] {
      RanNone(w, env, tc, mood);
    } else {
      var one, rest := LoopItems(tfs[0], tfs[0].loopStart), Items(tfs[1..]);
      IterationsRun(w, env, tc, tfs[0], tfs[0].loopStart, mood);
      TestsAppend(env, tc, one, rest, w.next, mood);
      TestsCallsAppend(env, tc, one, rest, w.next, mood);
      var f, x := Iterations(w, env, tc, tfs[0], tfs[0].loopStart), Forecast.Tests(env, tc, one, w.next, mood);
      if f.Live? {
        TestsRun(f.w, env, tc, tfs[1..], x.mood);
        RanTwice(w, env, tc, one, rest, f, x, Forecast.TestsCalls(env, tc, one, w.next, mood),
                 Tests(f.w, env, tc, tfs[1..]), Forecast.Tests(env, tc, rest, x.k, x.mood),
                 Forecast.TestsCalls(env, tc, rest, x.k, x.mood));
      }
      assert Tests(w, env, tc, tfs) == Then(f, Tests(f.w, env, tc, tfs[1..]));
    }
  }

  // ---------- a case ----------

  /** The results foretold for the case, and no others, were added with their events,
      and the user functions called are these. */
  ghost predicate CaseRan(w: World, env: Env, f: Flow<bool>, o: Outlook<CaseRun>, calls: seq<Call>) {
    && (f.Live? <==> o.Goes?)
    && (o.Goes? ==>
          && Counted(o.value)
          && Added(w, f.w, o.value.results, CaseEvents(o.value))
          && f.w.next == o.k && Bears(f.w, env, o.mood) && f.w.calls == w.calls + calls)
  }

  /** Unchecked setups: passed, or one result, that of the first setup that fails. */
  lemma UncheckedSetupsRun(w: World, env: Env, tc: Case, mood: Mood)
    requires Bears(w, env, mood)
    ensures
      var f := UncheckedSetups(w, env, tc);
      var o := Forecast.Setups(env, |tc.unchSetups|, w.next, mood, tc.name, "unchecked_setup");
      && (f.Live? <==> o.Goes?)
      && (o.Goes? ==>
            && f.w.next == o.k && Bears(f.w, env, o.mood)
            && f.w.calls == w.calls + Forecast.SetupCalls(env, tc.unchSetups, UncheckedSetup, w.next, mood)
            && (f.value <==> o.value.None?)
            && (o.value.None? ==> OnlyRan(w, f.w))
            && (o.value.Some? ==> Added(w, f.w, [o.value.value], [])))
  {
    NoforkSetupsReport(w, env, tc.unchSetups, UncheckedSetup, tc.name, "unchecked_setup", mood);
    var s := NoforkSetups(w, env, tc.unchSetups, UncheckedSetup, tc.name, "unchecked_setup");
    if s.Live? {
      CallsOfSetups(w, env, tc.unchSetups, UncheckedSetup, tc.name, "unchecked_setup", mood);
      if s.value.Some? {
        AddedOne(w, s.w, s.value.value);
      }
    }
  }

  /** What follows the unchecked setups of a case. */
  function RestOfCase(w: World, env: Env, tc: Case): Flow<bool> {
    var (w1, _) :- Tests(w, env, tc, tc.tests);
    Teardowns(w1, env, tc.unchTeardowns, UncheckedTeardown, env.fork)
  }

  lemma RestCalls(w: World, env: Env, tc: Case, mood: Mood)
    requires Bears(w, env, mood) && RestOfCase(w, env, tc).Live?
    ensures RestOfCase(w, env, tc).w.calls == w.calls + Forecast.AfterSetupsCalls(env, tc, w.next, mood)
  {
    TestsRun(w, env, tc, tc.tests, mood);
    var t := Tests(w, env, tc, tc.tests);
    var n := CallsMade(env, t.w.next, |tc.unchTeardowns|);
    CallsOfTeardowns(t.w, env, tc.unchTeardowns, UncheckedTeardown, env.fork);
    ConcatAssoc(w.calls, Forecast.TestsCalls(env, tc, Items(tc.tests), w.next, mood),
                Calls(UncheckedTeardown, tc.unchTeardowns[..n]));
  }

  lemma CallsOfCase(w: World, env: Env, tc: Case, mood: Mood)
    requires Bears(w, env, mood) && RunCase(w, env, tc).Live?
    ensures RunCase(w, env, tc).w.calls == w.calls + Forecast.CaseCalls(env, tc, w.next, mood)
  {
    UncheckedSetupsRun(w, env, tc, mood);
    var s := UncheckedSetups(w, env, tc);
    var o := Forecast.Setups(env, |tc.unchSetups|, w.next, mood, tc.name, "unchecked_setup");
    var setups := Forecast.SetupCalls(env, tc.unchSetups, UncheckedSetup, w.next, mood);
    if s.value {
      RestCalls(s.w, env, tc, o.mood);
      ConcatAssoc(w.calls, setups, Forecast.AfterSetupsCalls(env, tc, o.k, o.mood));
    } else {
      assert setups + [] == setups;
    }
  }

  /** A case, for every script and whatever is in the pipe: the runner survives it if and
      only if the forecast says so; then it adds exactly the foretold results, and calls
      exactly the foretold functions: the unchecked setups, for every test and loop value
      its setups, that test's own function with that value and its teardowns, and the
      unchecked teardowns. */
  lemma CaseHistory(w: World, env: Env, tc: Case, mood: Mood)
    requires Proper(env) && Bears(w, env, mood)
    ensures CaseRan(w, env, RunCase(w, env, tc), Forecast.CaseOf(env, tc, w.next, mood),
                    Forecast.CaseCalls(env, tc, w.next, mood))
  {
    if RunCase(w, env, tc).Live? {
      CallsOfCase(w, env, tc, mood);
    }
    UncheckedSetupsRun(w, env, tc, mood);
    CaseJudged(env, tc, w.next, mood);
    var s := UncheckedSetups(w, env, tc);
    var o := Forecast.Setups(env, |tc.unchSetups|, w.next, mood, tc.name, "unchecked_setup");
    if s.Live? && s.value {
      TestsRun(s.w, env, tc, tc.tests, o.mood);
      var t, x := Tests(s.w, env, tc, tc.tests), Forecast.Tests(env, tc, Items(tc.tests), o.k, o.mood);
      if t.Live? {
        UncheckedTeardownsReport(t.w, env, tc.unchTeardowns, UncheckedTeardown, x.mood);
      }
    }
  }
}
