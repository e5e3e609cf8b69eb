/** Theorems about whole runs: whether a run completes and what it reports is a
    function of the script; every selected case ran once, in order, with the results,
    counters and log events that follow. */
module RunHistory {
  import opened Base
  import opened Streams
  import opened Results
  import opened TestRun
  import opened Expectations
  import Forecast
  import opened Reports
  import opened ForkReports
  import opened SuiteRun

  // ---------- sums over histories ----------

  predicate AllCounted(cs: seq<CaseRun>) {
    forall i :: 0 <= i < |cs| ==> Counted(cs[i])
  }

  function CasesResults(cs: seq<CaseRun>): seq<TestResult>
    decreases |cs|
  {
    if cs == [] then [] else cs[0].results + CasesResults(cs[1..])
  }

  function CasesEvents(cs: seq<CaseRun>): seq<Event>
    requires AllCounted(cs)
    decreases |cs|
  {
    if cs == [] then [] else CaseEvents(cs[0]) + CasesEvents(cs[1..])
  }

  function CasesOf(cs: seq<CaseRun>): (tcs: seq<Case>)
    ensures |tcs| == |cs|
    decreases |cs|
  {
    if cs == [] then [] else [cs[0].tc] + CasesOf(cs[1..])
  }

  /** All cases of a run, suite after suite. */
  function AllCases(h: seq<SuiteHistory>): seq<CaseRun>
    decreases |h|
  {
    if h == [] then [] else h[0].cases + AllCases(h[1..])
  }

  function SuiteEvents(s: SuiteHistory): seq<Event>
    requires AllCounted(s.cases)
  {
    [StartSuite(s.name)] + CasesEvents(s.cases) + [EndSuite(s.name)]
  }

  predicate SuitesCounted(h: seq<SuiteHistory>) {
    forall i :: 0 <= i < |h| ==> AllCounted(h[i].cases)
  }

  function HistoryEvents(h: seq<SuiteHistory>): seq<Event>
    requires SuitesCounted(h)
    decreases |h|
  {
    if h == [] then [] else SuiteEvents(h[0]) + HistoryEvents(h[1..])
  }

  /** The history covers exactly these suites and, of each, exactly its wanted cases. */
  predicate Covers(h: seq<SuiteHistory>, suites: seq<Suite>, f: Filter) {
    && |h| == |suites|
    && forall i :: 0 <= i < |h| ==>
         h[i].name == suites[i].name && CasesOf(h[i].cases) == WantedCases(suites[i].cases, f)
  }

  // ---------- cases ----------

  ghost predicate CasesRan(w: World, env: Env, f: Flow<bool>, o: Outlook<seq<CaseRun>>, calls: seq<Call>) {
    && (f.Live? <==> o.Goes?)
    && (o.Goes? ==>
          && AllCounted(o.value)
          && Added(w, f.w, CasesResults(o.value), CasesEvents(o.value))
          && f.w.next == o.k && Bears(f.w, env, o.mood) && f.w.calls == w.calls + calls)
  }

  lemma CasesNone(w: World, env: Env, mood: Mood)
    requires Bears(w, env, mood)
    ensures CasesRan(w, env, Live(w, true), Goes([], w.next, mood), [])
  {
    assert w.calls + [] == w.calls;
    AddedNothing(w, w);
  }

  function ThenCases(a: Outlook<CaseRun>, b: Outlook<seq<CaseRun>>): Outlook<seq<CaseRun>> {
    if a.Ends? || b.Ends? then Ends else Goes([a.value] + b.value, b.k, b.mood)
  }

  lemma CasesCons(w: World, env: Env, f: Flow<bool>, x: Outlook<CaseRun>, c: seq<Call>,
                  g: Flow<bool>, y: Outlook<seq<CaseRun>>, d: seq<Call>)
    requires CaseRan(w, env, f, x, c) && (f.Live? ==> CasesRan(f.w, env, g, y, d))
    ensures CasesRan(w, env, Then(f, g), if x.Ends? then Ends else ThenCases(x, y), c + d)
  {
    if f.Live? && g.Live? {
      ConcatAssoc(w.calls, c, d);
      var all := [x.value] + y.value;
      assert all[0] == x.value && all[1..] == y.value;
      assert AllCounted(all);
      AddedTwice(w, f.w, g.w, x.value.results, CasesResults(y.value), CaseEvents(x.value), CasesEvents(y.value));
    }
  }

  lemma {:induction false} CasesHistory(w: World, env: Env, cases: seq<TaggedCase>, f: Filter, mood: Mood)
    requires Proper(env) && Bears(w, env, mood)
    ensures CasesRan(w, env, RunCases(w, env, cases, f), Forecast.Cases(env, WantedCases(cases, f), w.next, mood),
                     Forecast.CasesCalls(env, WantedCases(cases, f), w.next, mood))
    decreases |cases|
  {
    if cases == [] {
      CasesNone(w, env, mood);
    } else if !CaseWanted(cases[0], f) {
      CasesHistory(w, env, cases[1..], f, mood);
      assert [] + WantedCases(cases[1..], f) == WantedCases(cases[1..], f);
    } else {
      var tcs := WantedCases(cases, f);
      assert tcs[0] == cases[0].tc && tcs[1..] == WantedCases(cases[1..], f);
      var one, x := RunCase(w, env, cases[0].tc), Forecast.CaseOf(env, cases[0].tc, w.next, mood);
      CaseHistory(w, env, cases[0].tc, mood);
      if one.Live? {
        var rest, y := RunCases(one.w, env, cases[1..], f), Forecast.Cases(env, tcs[1..], x.k, x.mood);
        CasesHistory(one.w, env, cases[1..], f, x.mood);
        CasesCons(w, env, one, x, Forecast.CaseCalls(env, cases[0].tc, w.next, mood),
                  rest, y, Forecast.CasesCalls(env, tcs[1..], x.k, x.mood));
        assert RunCases(w, env, cases, f) == RunCasesFrom(w, env, cases, f) == Then(one, rest);
        assert Forecast.Cases(env, tcs, w.next, mood) == ThenCases(x, y);
      } else {
        assert RunCases(w, env, cases, f) == RunCasesFrom(w, env, cases, f);
      }
    }
  }

  // ---------- suites ----------

  /** How a sequence of suites will go. */
  function Suites(env: Env, suites: seq<Suite>, f: Filter, k: nat, mood: Mood): (o: Outlook<seq<SuiteHistory>>)
    decreases |suites|
  {
    if suites == [] then Goes([], k, mood)
    else
      match Forecast.Cases(env, WantedCases(suites[0].cases, f), k, mood)
      case Ends => Ends
      case Goes(cs, k1, mood1) =>
        match Suites(env, suites[1..], f, k1, mood1)
        case Ends => Ends
        case Goes(h, k2, mood2) => Goes([SuiteHistory(suites[0].name, cs)] + h, k2, mood2)
  }

  /** The user functions that the wanted cases of these suites call. */
  function SuitesCalls(env: Env, suites: seq<Suite>, f: Filter, k: nat, mood: Mood): seq<Call>
    decreases |suites|
  {
    if suites == [] then []
    else
      var o := Forecast.Cases(env, WantedCases(suites[0].cases, f), k, mood);
      Forecast.CasesCalls(env, WantedCases(suites[0].cases, f), k, mood)
      + if o.Goes? then SuitesCalls(env, suites[1..], f, o.k, o.mood) else []
  }

  /** The user functions that a run calls, in order. */
  function RunCalls(env: Env, suites: seq<Suite>, f: Filter, k: nat): seq<Call> {
    SuitesCalls(env, WantedSuites(suites, f), f, k, Clear)
  }

  /** How a run will go, after `k` user calls: the wanted suites with their wanted cases. */
  function RunOutlook(env: Env, suites: seq<Suite>, f: Filter, k: nat): Outlook<seq<SuiteHistory>> {
    Suites(env, WantedSuites(suites, f), f, k, Clear)
  }

  lemma {:induction false} CasesOfAre(cs: seq<CaseRun>, tcs: seq<Case>)
    requires |cs| == |tcs| && forall j :: 0 <= j < |tcs| ==> cs[j].tc == tcs[j]
    ensures CasesOf(cs) == tcs
    decreases |cs|
  {
    if cs != [] {
      CasesOfAre(cs[1..], tcs[1..]);
      assert [tcs[0]] + tcs[1..] == tcs;
    }
  }

  /** The forecast is about exactly these suites and, of each, its wanted cases, in order. */
  lemma {:induction false} OutlookCovers(env: Env, suites: seq<Suite>, f: Filter, k: nat, mood: Mood)
    ensures
      var o := Suites(env, suites, f, k, mood);
      o.Goes? ==> Covers(o.value, suites, f)
    decreases |suites|
  {
    if suites != [] {
      var tcs := WantedCases(suites[0].cases, f);
      var one := Forecast.Cases(env, tcs, k, mood);
      if one.Goes? {
        CasesOfAre(one.value, tcs);
        OutlookCovers(env, suites[1..], f, one.k, one.mood);
      }
    }
  }

  ghost predicate SuitesRan(w: World, env: Env, f: Flow<bool>, o: Outlook<seq<SuiteHistory>>, calls: seq<Call>) {
    && (f.Live? <==> o.Goes?)
    && (o.Goes? ==>
          && SuitesCounted(o.value)
          && Added(w, f.w, CasesResults(AllCases(o.value)), HistoryEvents(o.value))
          && f.w.next == o.k && Bears(f.w, env, o.mood) && f.w.calls == w.calls + calls)
  }

  lemma {:induction false} CasesResultsAppend(a: seq<CaseRun>, b: seq<CaseRun>)
    ensures CasesResults(a + b) == CasesResults(a) + CasesResults(b)
    decreases |a|
  {
    if a == [] {
      assert a + b == b;
    } else {
      assert (a + b)[0] == a[0] && (a + b)[1..] == a[1..] + b;
      CasesResultsAppend(a[1..], b);
      ConcatAssoc(a[0].results, CasesResults(a[1..]), CasesResults(b));
    }
  }

  /** A suite's two events around its cases. */
  lemma SuiteAdds(w: World, env: Env, s: Suite, f: Filter, mood: Mood)
    requires Proper(env) && Bears(w, env, mood)
    ensures
      var g, o := RunSuite(w, env, s, f), Forecast.Cases(env, WantedCases(s.cases, f), w.next, mood);
      && (g.Live? <==> o.Goes?)
      && (o.Goes? ==>
            && AllCounted(o.value)
            && Added(w, g.w, CasesResults(o.value), SuiteEvents(SuiteHistory(s.name, o.value)))
            && g.w.next == o.k && Bears(g.w, env, o.mood)
            && g.w.calls == w.calls + Forecast.CasesCalls(env, WantedCases(s.cases, f), w.next, mood))
  {
    var w0 := Log(w, StartSuite(s.name));
    CasesHistory(w0, env, s.cases, f, mood);
    var o := Forecast.Cases(env, WantedCases(s.cases, f), w.next, mood);
    if o.Goes? {
      var open, mid, close := [StartSuite(s.name)], CasesEvents(o.value), [EndSuite(s.name)];
      ConcatAssoc(w.events, open, mid);
      ConcatAssoc(w.events, open + mid, close);
    }
  }

  lemma SuitesCons(w: World, w1: World, w2: World, s: SuiteHistory, h: seq<SuiteHistory>)
    requires AllCounted(s.cases) && Added(w, w1, CasesResults(s.cases), SuiteEvents(s))
    requires SuitesCounted(h) && Added(w1, w2, CasesResults(AllCases(h)), HistoryEvents(h))
    ensures SuitesCounted([s] + h)
    ensures Added(w, w2, CasesResults(AllCases([s] + h)), HistoryEvents([s] + h))
  {
    var all := [s] + h;
    assert all[0] == s && all[1..] == h;
    assert AllCases(all) == s.cases + AllCases(h);
    CasesResultsAppend(s.cases, AllCases(h));
    AddedTwice(w, w1, w2, CasesResults(s.cases), CasesResults(AllCases(h)), SuiteEvents(s), HistoryEvents(h));
  }

  lemma {:induction false} SuitesHistory(w: World, env: Env, suites: seq<Suite>, f: Filter, mood: Mood)
    requires Proper(env) && Bears(w, env, mood)
    ensures SuitesRan(w, env, RunSuites(w, env, suites, f), Suites(env, WantedSuites(suites, f), f, w.next, mood),
                      SuitesCalls(env, WantedSuites(suites, f), f, w.next, mood))
    decreases |suites|
  {
    if suites == [] {
      AddedNothing(w, w);
      assert w.calls + [] == w.calls;
    } else if !SuiteWanted(suites[0], f) {
      SuitesHistory(w, env, suites[1..], f, mood);
      assert [] + WantedSuites(suites[1..], f) == WantedSuites(suites[1..], f);
    } else {
      var wanted := WantedSuites(suites, f);
      assert wanted[0] == suites[0] && wanted[1..] == WantedSuites(suites[1..], f);
      SuiteAdds(w, env, suites[0], f, mood);
      var one, x := RunSuite(w, env, suites[0], f), Forecast.Cases(env, WantedCases(suites[0].cases, f), w.next, mood);
      if one.Live? {
        SuitesHistory(one.w, env, suites[1..], f, x.mood);
        var rest, y := RunSuites(one.w, env, suites[1..], f), Suites(env, wanted[1..], f, x.k, x.mood);
        if rest.Live? {
          SuitesCons(w, one.w, rest.w, SuiteHistory(suites[0].name, x.value), y.value);
          ConcatAssoc(w.calls, Forecast.CasesCalls(env, WantedCases(suites[0].cases, f), w.next, mood),
                      SuitesCalls(env, wanted[1..], f, x.k, x.mood));
        }
      }
    }
  }

  // ---------- the run ----------

  function RunEvents(h: seq<SuiteHistory>): seq<Event>
    requires SuitesCounted(h)
  {
    [InitLog, StartRunner] + HistoryEvents(h) + [EndRunner, EndLog]
  }

  /** For every script: a run completes if and only if its forecast does, which no pipe
      and no message enters; and then exactly the wanted cases of the wanted suites
      ran, once each and in list order, the results, the three counters and the events
      are the foretold ones, and so are the user functions called, with their loop values. */
  lemma RunIsItsHistory(w: World, env: Env, suites: seq<Suite>, f: Filter)
    requires Proper(env)
    ensures
      var g, o := RunTagged(w, env, suites, f), RunOutlook(env, suites, f, w.next);
      && (g.Live? <==> o.Goes?)
      && (o.Goes? ==>
            && Covers(o.value, WantedSuites(suites, f), f) && SuitesCounted(o.value)
            && Added(w, g.w, CasesResults(AllCases(o.value)), RunEvents(o.value))
            && g.w.next == o.k && g.w.calls == w.calls + RunCalls(env, suites, f, w.next))
  {
    var start := Log(Log(w.(pipe := []), InitLog), StartRunner);
    SuitesHistory(start, env, suites, f, Clear);
    OutlookCovers(env, WantedSuites(suites, f), f, w.next, Clear);
    var o := RunOutlook(env, suites, f, w.next);
    if o.Goes? {
      RunAdds(w, start, RunSuites(start, env, suites, f).w, o.value);
    }
  }

  lemma RunAdds(w: World, start: World, w1: World, h: seq<SuiteHistory>)
    requires start == Log(Log(w.(pipe := []), InitLog), StartRunner) && SuitesCounted(h)
    requires Added(start, w1, CasesResults(AllCases(h)), HistoryEvents(h))
    ensures Added(w, Log(Log(w1.(pipe := []), EndRunner), EndLog), CasesResults(AllCases(h)), RunEvents(h))
  {
    var mid := HistoryEvents(h);
    assert w.events + [InitLog] + [StartRunner] == w.events + [InitLog, StartRunner];
    ConcatAssoc(w.events, [InitLog, StartRunner], mid);
    var before := w.events + ([InitLog, StartRunner] + mid);
    assert before + [EndRunner] + [EndLog] == before + [EndRunner, EndLog];
    ConcatAssoc(w.events, [InitLog, StartRunner] + mid, [EndRunner, EndLog]);
  }
}
