/** The loggers of src/check_log.c: the order of the events every logger gets, and
    the lines the TAP logger makes of them. */
module Logging {
  import opened Base
  import opened Results
  import opened TestRun
  import opened Expectations
  import opened SuiteRun
  import opened RunHistory
  import opened CheckList

  // ---------- the language of event sequences ----------

  /** INITLOG START_SR (START_S (START_T END_T)* END_S)* END_SR ENDLOG, as an automaton. */
  datatype Place = Begin | Opened | Between | InSuite | InTest | Closing | Done | Wrong

  function Move(p: Place, e: Event): Place {
    match (p, e)
    case (Begin, InitLog) => Opened
    case (Opened, StartRunner) => Between
    case (Between, StartSuite(_)) => InSuite
    case (InSuite, StartTest(_, _)) => InTest
    case (InTest, EndTest(_)) => InSuite
    case (InSuite, EndSuite(_)) => Between
    case (Between, EndRunner) => Closing
    case (Closing, EndLog) => Done
    case _ => Wrong
  }

  function Moves(p: Place, es: seq<Event>): Place
    decreases |es|
  {
    if es == [] then p else Moves(Move(p, es[0]), es[1..])
  }

  lemma {:induction false} MovesAppend(p: Place, a: seq<Event>, b: seq<Event>)
    ensures Moves(p, a + b) == Moves(Moves(p, a), b)
    decreases |a|
  {
    if a == [] {
      assert a + b == b;
    } else {
      assert (a + b)[0] == a[0] && (a + b)[1..] == a[1..] + b;
      MovesAppend(Move(p, a[0]), a[1..], b);
    }
  }

  lemma MovesTwo(p: Place, a: Event, b: Event)
    ensures Moves(p, [a, b]) == Move(Move(p, a), b)
  {
    assert [a, b][1..] == [b] && [b][1..] == [];
    assert Moves(Move(p, a), [b]) == Moves(Move(Move(p, a), b), []);
  }

  lemma MovesOne(p: Place, a: Event)
    ensures Moves(p, [a]) == Move(p, a)
  {
    assert [a][1..] == [];
  }

  lemma {:induction false} TestsStayInSuite(tc: Case, items: seq<Item>, trs: seq<TestResult>)
    requires |items| == |trs|
    ensures Moves(InSuite, TestEvents(tc, items, trs)) == InSuite
    decreases |items|
  {
    if items != [] {
      var pair := [StartTest(tc.name, items[0].tf.name), EndTest(trs[0])];
      MovesAppend(InSuite, pair, TestEvents(tc, items[1..], trs[1..]));
      MovesTwo(InSuite, pair[0], pair[1]);
      TestsStayInSuite(tc, items[1..], trs[1..]);
    }
  }

  lemma {:induction false} CasesStayInSuite(cs: seq<CaseRun>)
    requires AllCounted(cs)
    ensures Moves(InSuite, CasesEvents(cs)) == InSuite
    decreases |cs|
  {
    if cs != [] {
      if cs[0].ready {
        TestsStayInSuite(cs[0].tc, Items(cs[0].tc.tests), cs[0].results);
      }
      MovesAppend(InSuite, CaseEvents(cs[0]), CasesEvents(cs[1..]));
      CasesStayInSuite(cs[1..]);
    }
  }

  lemma SuiteReturnsBetween(s: SuiteHistory)
    requires AllCounted(s.cases)
    ensures Moves(Between, SuiteEvents(s)) == Between
  {
    var open, mid, close := [StartSuite(s.name)], CasesEvents(s.cases), [EndSuite(s.name)];
    MovesOne(Between, open[0]);
    CasesStayInSuite(s.cases);
    MovesAppend(Between, open, mid);
    MovesOne(InSuite, close[0]);
    MovesAppend(Between, open + mid, close);
  }

  lemma {:induction false} SuitesStayBetween(h: seq<SuiteHistory>)
    requires SuitesCounted(h)
    ensures Moves(Between, HistoryEvents(h)) == Between
    decreases |h|
  {
    if h != [] {
      SuiteReturnsBetween(h[0]);
      MovesAppend(Between, SuiteEvents(h[0]), HistoryEvents(h[1..]));
      SuitesStayBetween(h[1..]);
    }
  }

  /** The events of every completed run are in the language. */
  lemma RunEventsInOrder(h: seq<SuiteHistory>)
    requires SuitesCounted(h)
    ensures Moves(Begin, RunEvents(h)) == Done
  {
    var open, mid, close := [InitLog, StartRunner], HistoryEvents(h), [EndRunner, EndLog];
    MovesTwo(Begin, open[0], open[1]);
    SuitesStayBetween(h);
    MovesAppend(Begin, open, mid);
    MovesTwo(Between, close[0], close[1]);
    MovesAppend(Begin, open + mid, close);
  }

  // ---------- TAP ----------

  datatype TapLine = TapTest(ok: bool, number: int, result: TestResult) | TapPlan(count: int)

  datatype Tap = Tap(run: int, lines: seq<TapLine>)

  /** tap_lfun, with its static counter. */
  function TapOn(t: Tap, e: Event): Tap {
    match e
    case InitLog => t.(run := 0)
    case EndLog => t.(lines := t.lines + [TapPlan(t.run)])
    case EndTest(tr) => Tap(t.run + 1, t.lines + [TapTest(tr.rtype == Pass, t.run + 1, tr)])
    case _ => t
  }

  function TapAll(t: Tap, es: seq<Event>): Tap
    decreases |es|
  {
    if es == [] then t else TapAll(TapOn(t, es[0]), es[1..])
  }

  lemma {:induction false} TapAppend(t: Tap, a: seq<Event>, b: seq<Event>)
    ensures TapAll(t, a + b) == TapAll(TapAll(t, a), b)
    decreases |a|
  {
    if a == [] {
      assert a + b == b;
    } else {
      assert (a + b)[0] == a[0] && (a + b)[1..] == a[1..] + b;
      TapAppend(TapOn(t, a[0]), a[1..], b);
    }
  }

  lemma TapTwo(t: Tap, a: Event, b: Event)
    ensures TapAll(t, [a, b]) == TapOn(TapOn(t, a), b)
  {
    assert [a, b][1..] == [b] && [b][1..] == [];
    assert TapAll(TapOn(t, a), [b]) == TapAll(TapOn(TapOn(t, a), b), []);
  }

  lemma TapOne(t: Tap, a: Event)
    ensures TapAll(t, [a]) == TapOn(t, a)
  {
    assert [a][1..] == [];
  }

  /** The results numbered from `n` on, one line each. */
  function Numbered(trs: seq<TestResult>, n: int): (ls: seq<TapLine>)
    ensures |ls| == |trs|
    decreases |trs|
  {
    if trs == [] then [] else [TapTest(trs[0].rtype == Pass, n, trs[0])] + Numbered(trs[1..], n + 1)
  }

  lemma {:induction false} NumberedAt(trs: seq<TestResult>, n: int, j: nat)
    requires j < |trs|
    ensures Numbered(trs, n)[j] == TapTest(trs[j].rtype == Pass, n + j, trs[j])
    decreases |trs|
  {
    if j > 0 {
      NumberedAt(trs[1..], n + 1, j - 1);
    }
  }

  lemma {:induction false} NumberedAppend(a: seq<TestResult>, b: seq<TestResult>, n: int, m: int)
    requires m == n + |a|
    ensures Numbered(a + b, n) == Numbered(a, n) + Numbered(b, m)
    decreases |a|
  {
    if a == [] {
      assert a + b == b;
    } else {
      assert (a + b)[0] == a[0] && (a + b)[1..] == a[1..] + b;
      NumberedAppend(a[1..], b, n + 1, m);
      ConcatAssoc([TapTest(a[0].rtype == Pass, n, a[0])], Numbered(a[1..], n + 1), Numbered(b, m));
    }
  }

  /** The results that are logged: those of cases whose unchecked setups passed. */
  function Logged(cs: seq<CaseRun>): seq<TestResult>
    decreases |cs|
  {
    if cs == [] then [] else (if cs[0].ready then cs[0].results else []) + Logged(cs[1..])
  }

  function FailedSetups(cs: seq<CaseRun>): nat
    decreases |cs|
  {
    if cs == [] then 0 else (if cs[0].ready then 0 else 1) + FailedSetups(cs[1..])
  }

  function Advance(t: Tap, trs: seq<TestResult>): Tap {
    Tap(t.run + |trs|, t.lines + Numbered(trs, t.run + 1))
  }

  lemma AdvanceTwice(t: Tap, a: seq<TestResult>, b: seq<TestResult>)
    ensures Advance(Advance(t, a), b) == Advance(t, a + b)
  {
    var m := t.run + |a| + 1;
    NumberedAppend(a, b, t.run + 1, m);
    ConcatAssoc(t.lines, Numbered(a, t.run + 1), Numbered(b, m));
  }

  lemma AdvanceNone(t: Tap)
    ensures Advance(t, []) == t
  {
    assert t.lines + [] == t.lines;
  }

  lemma {:induction false} TapTests(t: Tap, tc: Case, items: seq<Item>, trs: seq<TestResult>)
    requires |items| == |trs|
    ensures TapAll(t, TestEvents(tc, items, trs)) == Advance(t, trs)
    decreases |items|
  {
    if items == [] {
      AdvanceNone(t);
    } else {
      var pair := [StartTest(tc.name, items[0].tf.name), EndTest(trs[0])];
      TapAppend(t, pair, TestEvents(tc, items[1..], trs[1..]));
      TapTwo(t, pair[0], pair[1]);
      assert [trs[0]][1..] == [];
      assert Numbered([trs[0]], t.run + 1) == [TapTest(trs[0].rtype == Pass, t.run + 1, trs[0])];
      TapTests(Advance(t, [trs[0]]), tc, items[1..], trs[1..]);
      AdvanceTwice(t, [trs[0]], trs[1..]);
      assert [trs[0]] + trs[1..] == trs;
    }
  }

  lemma {:induction false} TapCases(t: Tap, cs: seq<CaseRun>)
    requires AllCounted(cs)
    ensures TapAll(t, CasesEvents(cs)) == Advance(t, Logged(cs))
    decreases |cs|
  {
    if cs == [] {
      AdvanceNone(t);
    } else {
      var c := cs[0];
      var shown := if c.ready then c.results else [];
      if c.ready {
        TapTests(t, c.tc, Items(c.tc.tests), c.results);
      } else {
        AdvanceNone(t);
      }
      TapAppend(t, CaseEvents(c), CasesEvents(cs[1..]));
      TapCases(Advance(t, shown), cs[1..]);
      AdvanceTwice(t, shown, Logged(cs[1..]));
    }
  }

  lemma TapSuite(t: Tap, s: SuiteHistory)
    requires AllCounted(s.cases)
    ensures TapAll(t, SuiteEvents(s)) == Advance(t, Logged(s.cases))
  {
    var open, mid, close := [StartSuite(s.name)], CasesEvents(s.cases), [EndSuite(s.name)];
    TapOne(t, open[0]);
    TapCases(t, s.cases);
    TapAppend(t, open, mid);
    TapOne(Advance(t, Logged(s.cases)), close[0]);
    TapAppend(t, open + mid, close);
  }

  lemma {:induction false} LoggedAppend(a: seq<CaseRun>, b: seq<CaseRun>)
    ensures Logged(a + b) == Logged(a) + Logged(b)
    decreases |a|
  {
    if a == [] {
      assert a + b == b;
    } else {
      assert (a + b)[0] == a[0] && (a + b)[1..] == a[1..] + b;
      LoggedAppend(a[1..], b);
      ConcatAssoc(if a[0].ready then a[0].results else [], Logged(a[1..]), Logged(b));
    }
  }

  lemma {:induction false} TapSuites(t: Tap, h: seq<SuiteHistory>)
    requires SuitesCounted(h)
    ensures TapAll(t, HistoryEvents(h)) == Advance(t, Logged(AllCases(h)))
    decreases |h|
  {
    if h == [] {
      AdvanceNone(t);
    } else {
      TapAppend(t, SuiteEvents(h[0]), HistoryEvents(h[1..]));
      TapSuite(t, h[0]);
      TapSuites(Advance(t, Logged(h[0].cases)), h[1..]);
      AdvanceTwice(t, Logged(h[0].cases), Logged(AllCases(h[1..])));
      LoggedAppend(h[0].cases, AllCases(h[1..]));
    }
  }

  /** Whatever the counter held before: a completed run prints its logged results
      numbered 1 to N in order, and then the plan 1..N. */
  lemma TapRun(t: Tap, h: seq<SuiteHistory>)
    requires SuitesCounted(h)
    ensures
      var shown := Logged(AllCases(h));
      TapAll(t, RunEvents(h)).lines == t.lines + Numbered(shown, 1) + [TapPlan(|shown|)]
  {
    var open, mid, close := [InitLog, StartRunner], HistoryEvents(h), [EndRunner, EndLog];
    TapTwo(t, open[0], open[1]);
    var t0 := t.(run := 0);
    TapAppend(t, open, mid);
    TapSuites(t0, h);
    var t1 := Advance(t0, Logged(AllCases(h)));
    TapTwo(t1, close[0], close[1]);
    TapAppend(t, open + mid, close);
  }

  /** A run checks one more than it logs for every failed unchecked setup. */
  lemma {:induction false} CheckedIsLoggedPlusFailedSetups(cs: seq<CaseRun>)
    requires AllCounted(cs)
    ensures |CasesResults(cs)| == |Logged(cs)| + FailedSetups(cs)
    decreases |cs|
  {
    if cs != [] {
      CheckedIsLoggedPlusFailedSetups(cs[1..]);
    }
  }
}
