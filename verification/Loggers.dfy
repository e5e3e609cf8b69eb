/** The list of loggers of src/check_log.c, and how an event reaches each of them. */
module Loggers {
  import opened Base
  import opened Results
  import opened TestRun
  import opened Expectations
  import opened SuiteRun
  import opened RunHistory
  import opened Logging
  import opened CheckList

  datatype Kind = Stdout | Subunit | LogFile | XmlFile | TapFile

  /** A registered log function and its file: the events it was called with, and the
      lines it wrote if it is the TAP one. */
  class Logger {
    const kind: Kind
    var received: seq<Event>
    var lines: seq<TapLine>

    constructor (kind: Kind)
      ensures this.kind == kind && received == [] && lines == []
    {
      this.kind := kind;
      received, lines := [], [];
    }
  }

  class LogList {
    var loglst: List<Logger>
    /** The static counter of tap_lfun. */
    var numTestsRun: int

    /** The TAP logger, if there is one. */
    ghost var tap: Logger?

    ghost predicate Valid()
      reads this, loglst, loglst.data
    {
      && loglst.Valid()
      && (forall i, j :: 0 <= i < j < |loglst.elems| ==> loglst.elems[i] != loglst.elems[j])
      && (forall l :: l in loglst.elems ==> (l.kind == TapFile <==> l == tap))
      && (tap != null ==> tap in loglst.elems)
    }

    /** What the TAP logger has counted and written. */
    ghost function TheTap(): Tap
      reads this, tap
    {
      Tap(numTestsRun, if tap == null then [] else tap.lines)
    }

    /** srunner_init_logging: one logger for the output, one for each file that could
        be opened, and the first event. */
    constructor (subunit: bool, lfile: bool, xml: bool, tapFile: bool, count: int)
      ensures Valid() && fresh(loglst) && fresh(loglst.data)
      ensures forall i :: 0 <= i < |loglst.elems| ==> fresh(loglst.elems[i]) && loglst.elems[i].received == [InitLog]
      ensures |loglst.elems| == 1 + (if lfile then 1 else 0) + (if xml then 1 else 0) + (if tapFile then 1 else 0)
      ensures (tap != null <==> tapFile) && TheTap() == Tap(if tapFile then 0 else count, [])
    {
      loglst := new List<Logger>();
      numTestsRun, tap := count, null;
      new;
      RegisterAll(subunit, lfile, xml, tapFile);
      SendEvt(InitLog);
      assert [] + [InitLog] == [InitLog];
    }

    ghost predicate Silent(l: Logger)
      reads l
    {
      l.received == [] && l.lines == []
    }

    method RegisterAll(subunit: bool, lfile: bool, xml: bool, tapFile: bool)
      requires Valid() && loglst.elems == []
      modifies this, loglst, loglst.data
      ensures Valid() && loglst == old(loglst) && (loglst.data == old(loglst.data) || fresh(loglst.data))
      ensures numTestsRun == old(numTestsRun) && (tap != null <==> tapFile)
      ensures |loglst.elems| == 1 + (if lfile then 1 else 0) + (if xml then 1 else 0) + (if tapFile then 1 else 0)
      ensures forall i :: 0 <= i < |loglst.elems| ==> fresh(loglst.elems[i]) && Silent(loglst.elems[i])
    {
      Register(true, if subunit then Subunit else Stdout);
      Register(lfile, LogFile);
      Register(xml, XmlFile);
      Register(tapFile, TapFile);
    }

    /** srunner_register_lfun, where the output is wanted and its file is open. */
    method Register(wanted: bool, kind: Kind)
      requires Valid() && (kind == TapFile ==> tap == null)
      modifies this, loglst, loglst.data
      ensures Valid() && loglst == old(loglst) && (loglst.data == old(loglst.data) || fresh(loglst.data))
      ensures numTestsRun == old(numTestsRun)
      ensures |loglst.elems| == |old(loglst.elems)| + if wanted then 1 else 0
      ensures forall i :: 0 <= i < |loglst.elems| ==>
                if i < |old(loglst.elems)| then loglst.elems[i] == old(loglst.elems)[i]
                else fresh(loglst.elems[i]) && Silent(loglst.elems[i])
      ensures if kind == TapFile && wanted then tap != null else tap == old(tap)
    {
      if wanted {
        var l := new Logger(kind);
        loglst.AddEnd(l);
        if kind == TapFile {
          tap := l;
        }
      }
    }

    /** tap_lfun for the TAP logger; the others only note the event. */
    method Call(lg: Logger, e: Event)
      requires lg.kind == TapFile <==> lg == tap
      modifies lg, this`numTestsRun
      ensures lg.received == old(lg.received) + [e]
      ensures TheTap() == if lg == tap then TapOn(old(TheTap()), e) else old(TheTap())
    {
      lg.received := lg.received + [e];
      if lg.kind == TapFile {
        match e {
          case InitLog => numTestsRun := 0;
          case EndLog => lg.lines := lg.lines + [TapPlan(numTestsRun)];
          case EndTest(tr) =>
            numTestsRun := numTestsRun + 1;
            lg.lines := lg.lines + [TapTest(tr.rtype == Pass, numTestsRun, tr)];
          case _ =>
        }
      }
    }

    /** The logger under the cursor gets the event, the others keep what they have. */
    method Deliver(e: Event)
      requires Valid() && !loglst.AtEnd()
      modifies this`numTestsRun, loglst`current, loglst.elems[loglst.current]
      ensures Valid() && loglst.current == old(loglst.current) + 1
      ensures loglst.elems[old(loglst.current)].received == old(loglst.elems[loglst.current].received) + [e]
      ensures TheTap() == if loglst.elems[old(loglst.current)] == tap then TapOn(old(TheTap()), e) else old(TheTap())
    {
      var lg := loglst.Val();
      Call(lg.value, e);
      loglst.Advance();
    }

    /** srunner_send_evt: every logger gets the event, once. */
    method SendEvt(e: Event)
      requires Valid()
      modifies this`numTestsRun, loglst`current, loglst.elems
      ensures Valid() && tap == old(tap) && loglst.elems == old(loglst.elems)
      ensures forall i :: 0 <= i < |loglst.elems| ==>
                loglst.elems[i].received == old(loglst.elems[i].received) + [e]
      ensures TheTap() == if tap == null then old(TheTap()) else TapOn(old(TheTap()), e)
    {
      loglst.Front();
      while !loglst.AtEnd()
        invariant Valid() && loglst.elems == old(loglst.elems) && tap == old(tap)
        invariant forall i :: 0 <= i < |loglst.elems| ==>
                    loglst.elems[i].received == old(loglst.elems[i].received) + if i < loglst.current then [e] else []
        invariant TheTap() == if tap == null || tap !in loglst.elems[..loglst.current] then old(TheTap())
                              else TapOn(old(TheTap()), e)
        decreases |loglst.elems| - loglst.current
      {
        Deliver(e);
      }
    }

    /** The calls of a run, one after the other. */
    method SendAll(es: seq<Event>)
      requires Valid()
      modifies this`numTestsRun, loglst`current, loglst.elems
      ensures Valid() && tap == old(tap) && loglst.elems == old(loglst.elems)
      ensures forall i :: 0 <= i < |loglst.elems| ==>
                loglst.elems[i].received == old(loglst.elems[i].received) + es
      ensures tap != null ==> TheTap() == TapAll(old(TheTap()), es)
    {
      var k := 0;
      ghost var left := es;
      while k < |es|
        invariant k <= |es| && left == es[k..] && Valid() && tap == old(tap) && loglst.elems == old(loglst.elems)
        invariant forall i :: 0 <= i < |loglst.elems| ==>
                    loglst.elems[i].received == old(loglst.elems[i].received) + es[..k]
        invariant tap != null ==> TapAll(TheTap(), left) == TapAll(old(TheTap()), es)
      {
        assert es[..k + 1] == es[..k] + [es[k]];
        SendEvt(es[k]);
        k, left := k + 1, left[1..];
      }
      assert es[..k] == es;
    }
  }

  /** From srunner_init_logging to srunner_end_logging, for the events of a history. */
  method LogHistory(subunit: bool, lfile: bool, xml: bool, tapFile: bool, count: int, es: seq<Event>,
                    ghost h: seq<SuiteHistory>)
    returns (ls: LogList)
    requires SuitesCounted(h) && es == RunEvents(h)
    ensures ls.Valid() && ls.loglst.elems != []
    ensures forall i :: 0 <= i < |ls.loglst.elems| ==> ls.loglst.elems[i].received == es
    ensures tapFile ==> ls.tap != null &&
                        ls.tap.lines == Numbered(Logged(AllCases(h)), 1) + [TapPlan(|Logged(AllCases(h))|)]
  {
    assert es == [InitLog] + es[1..];
    ls := new LogList(subunit, lfile, xml, tapFile, count);
    ls.SendAll(es[1..]);
    TapRun(Tap(count, []), h);
    assert [] + Numbered(Logged(AllCases(h)), 1) == Numbered(Logged(AllCases(h)), 1);
  }

  lemma SameTail<T>(s: seq<T>, a: seq<T>, b: seq<T>)
    requires s + a == s + b
    ensures a == b
  {
    assert a == (s + a)[|s|..] && b == (s + b)[|s|..];
  }

  /** For every run that completes: each logger gets exactly the events the run sends,
      in the language of runs, and the TAP file numbers the tests of the forecast from 1
      to N with plan 1..N, whatever the static counter held before. */
  method LogRun(subunit: bool, lfile: bool, xml: bool, tapFile: bool, count: int, es: seq<Event>,
                ghost w: World, ghost env: Env, ghost suites: seq<Suite>, ghost f: Filter)
    returns (ls: LogList)
    requires Proper(env) && RunTagged(w, env, suites, f).Live? && RunTagged(w, env, suites, f).w.events == w.events + es
    ensures ls.Valid() && ls.loglst.elems != []
    ensures forall i :: 0 <= i < |ls.loglst.elems| ==> ls.loglst.elems[i].received == es
    ensures Moves(Begin, es) == Done
    ensures RunOutlook(env, suites, f, w.next).Goes?
    ensures
      var tests := Logged(AllCases(RunOutlook(env, suites, f, w.next).value));
      tapFile ==> ls.tap != null && ls.tap.lines == Numbered(tests, 1) + [TapPlan(|tests|)]
  {
    RunIsItsHistory(w, env, suites, f);
    ghost var h := RunOutlook(env, suites, f, w.next).value;
    SameTail(w.events, es, RunEvents(h));
    RunEventsInOrder(h);
    ls := LogHistory(subunit, lfile, xml, tapFile, count, es, h);
  }
}
