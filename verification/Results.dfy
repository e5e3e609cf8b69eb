/** Test results: how src/check_msg.c builds one from a received record and how
    src/check_run.c completes it from the way the test ended. */
module Results {
  import opened Base
  import opened Codec
  import opened Receive

  datatype ResultType = NoResult | Pass | Failure | Error

  /** The message of a result: the test's own text, or one of the runner's. */
  datatype Note =
    | Passed
    | Text(text: cstr)
    | EarlyExit(code: int)
    | GotSignal(sig: int)
    | GotSignalExpected(sig: int, expected: int)
    | TimedOut
    | TimedOutExpected(expected: int)

  datatype TestResult = TestResult(
    rtype: ResultType,
    ctx: uint32,
    file: Option<cstr>,
    line: int32,
    iter: int,
    usec: int,
    tcname: string,
    tname: string,
    note: Option<Note>)

  const FreshResult := TestResult(NoResult, CTX_INVALID, None, -1, 0, -1, "", "", None)

  /** How a child process ended, as waitpid tells it. */
  datatype Status = Exited(code: byte) | Signalled(sig: int)

  // ---------- construct_test_result ----------

  function LocateBy(tr: TestResult, ctx: uint32, r: Rcv): TestResult {
    if ctx == CTX_TEST
    then tr.(ctx := ctx, file := r.testFile, line := r.testLine)
    else tr.(ctx := ctx, file := r.fixtureFile, line := r.fixtureLine)
  }

  function Construct(r: Rcv, wasError: bool): TestResult {
    if r.text.Some? || wasError then
      var note := if r.text.Some? then Some(Text(r.text.value)) else None;
      LocateBy(FreshResult.(note := note), if r.failctx != CTX_INVALID then r.failctx else r.lastctx, r)
    else if r.lastctx == CTX_SETUP then
      LocateBy(FreshResult, CTX_SETUP, r)
    else
      LocateBy(FreshResult.(usec := r.usec), CTX_TEST, r)
  }

  /** tr_set_loc_by_ctx: the location moves from the record into the result. */
  method SetLocByCtx(tr: TestResult, ctx: uint32, rmsg: RcvMsg) returns (tr': TestResult)
    modifies rmsg
    ensures tr' == LocateBy(tr, ctx, old(rmsg.View()))
    ensures rmsg.View() ==
            if ctx == CTX_TEST
            then old(rmsg.View()).(testFile := None, testLine := -1)
            else old(rmsg.View()).(fixtureFile := None, fixtureLine := -1)
  {
    if ctx == CTX_TEST {
      tr' := tr.(ctx := ctx, file := rmsg.testFile, line := rmsg.testLine);
      rmsg.testFile, rmsg.testLine := None, -1;
    } else {
      tr' := tr.(ctx := ctx, file := rmsg.fixtureFile, line := rmsg.fixtureLine);
      rmsg.fixtureFile, rmsg.fixtureLine := None, -1;
    }
  }

  /** construct_test_result: no string is owned by both the result and the record. */
  method ConstructTestResult(rmsg: RcvMsg, wasError: bool) returns (tr: TestResult)
    modifies rmsg
    ensures tr == Construct(old(rmsg.View()), wasError)
    ensures rmsg.text.None?
    ensures tr.ctx == CTX_TEST ==> rmsg.testFile.None?
    ensures tr.ctx != CTX_TEST ==> rmsg.fixtureFile.None?
  {
    tr := FreshResult;
    if rmsg.text.Some? || wasError {
      var ctx := if rmsg.failctx != CTX_INVALID then rmsg.failctx else rmsg.lastctx;
      tr := tr.(note := if rmsg.text.Some? then Some(Text(rmsg.text.value)) else None);
      rmsg.text := None;
      tr := SetLocByCtx(tr, ctx, rmsg);
    } else if rmsg.lastctx == CTX_SETUP {
      tr := SetLocByCtx(tr, CTX_SETUP, rmsg);
    } else {
      tr := tr.(usec := rmsg.usec);
      tr := SetLocByCtx(tr, CTX_TEST, rmsg);
    }
  }

  // ---------- the verdict ----------

  /** A value stored in, or an exit status read as, a signed char. */
  function SignedChar(v: int): int {
    var b := v % 0x100;
    if b > 0x7F then b - 0x100 else b
  }

  predicate WasError(status: Status, expected: int) {
    match status
    case Signalled(sig) => sig != expected
    case Exited(code) => code != 0
  }

  function SetNoforkInfo(tr: TestResult): TestResult {
    if tr.note.None? then tr.(rtype := Pass, note := Some(Passed)) else tr.(rtype := Failure)
  }

  /** set_fork_info; `allowed` is the argument of _tcase_add_test. */
  function SetForkInfo(tr: TestResult, status: Status, alarm: bool, expected: int, allowed: int): TestResult {
    match status
    case Signalled(sig) =>
      if expected == sig then
        if alarm
        then tr.(rtype := Error, note := Some(SignalErrorNote(sig, expected, alarm)))
        else tr.(rtype := Pass, note := Some(Passed))
      else if expected != 0 then
        tr.(rtype := Error, note := Some(SignalErrorNote(sig, expected, alarm)))
      else
        tr.(rtype := Error, note := Some(if alarm then TimedOut else GotSignal(sig)))
    case Exited(code) =>
      var exitStatus := SignedChar(code);
      if expected == 0 then
        if exitStatus == SignedChar(allowed) then
          tr.(rtype := Pass, note := Some(Passed))
        else if tr.note.None? then
          tr.(rtype := Error, note := Some(EarlyExit(exitStatus)))
        else
          tr.(rtype := Failure)
      else
        tr.(rtype := Failure, note := Some(EarlyExit(exitStatus)))
  }

  function SignalErrorNote(sig: int, expected: int, alarm: bool): Note {
    if alarm then TimedOutExpected(expected) else GotSignalExpected(sig, expected)
  }

  /** What every message tells: each of the runner's own notes is given exactly for its
      ending, and the text of an assertion exactly where that is what failed. */
  lemma NoteMeaning(r: Rcv, wasError: bool, status: Status, alarm: bool, expected: int, allowed: int,
                    tcname: string, tname: string, i: int)
    ensures
      var tr := Construct(r, wasError).(tcname := tcname, tname := tname, iter := i);
      var note := SetForkInfo(tr, status, alarm, expected, allowed).note;
      && (forall s :: note == Some(GotSignal(s)) <==>
            status == Signalled(s) && s != expected && expected == 0 && !alarm)
      && (note == Some(TimedOut) <==> status.Signalled? && status.sig != expected && expected == 0 && alarm)
      && (forall s, x :: note == Some(GotSignalExpected(s, x)) <==>
            status == Signalled(s) && s != expected && x == expected != 0 && !alarm)
      && (forall x :: note == Some(TimedOutExpected(x)) <==>
            status.Signalled? && x == expected && alarm && (expected != 0 || status.sig == 0))
      && (forall c :: note == Some(EarlyExit(c)) <==>
            status.Exited? && c == SignedChar(status.code)
            && (expected != 0 || (status.code != allowed % 0x100 && r.text.None?)))
      && (forall t :: note == Some(Text(t)) <==>
            status.Exited? && expected == 0 && status.code != allowed % 0x100 && r.text == Some(t))
      && (note == Some(Passed) <==>
            || (status.Signalled? && status.sig == expected && !alarm)
            || (status.Exited? && expected == 0 && status.code == allowed % 0x100))
  {
    if status.Exited? {
      assert SignedChar(status.code) == SignedChar(allowed) <==> status.code == allowed % 0x100;
    }
  }

  /** What each verdict means, for every ending: a pass is the expected signal in
      time or the allowed status when no signal was expected; a failure is a
      failed assertion whose exit status was not allowed, or a missing signal;
      everything else is an error. Every result gets a message. */
  lemma VerdictMeaning(tr: TestResult, status: Status, alarm: bool, expected: int, allowed: int)
    ensures
      var v := SetForkInfo(tr, status, alarm, expected, allowed);
      && v.note.Some?
      && v == tr.(rtype := v.rtype, note := v.note)
      && (v.rtype == Pass <==>
            || (status.Signalled? && status.sig == expected && !alarm)
            || (status.Exited? && expected == 0 && status.code == allowed % 0x100))
      && (v.rtype == Failure <==>
            status.Exited? && (expected != 0 || (status.code != allowed % 0x100 && tr.note.Some?)))
      && (v.rtype == Error <==>
            || (status.Signalled? && (status.sig != expected || alarm))
            || (status.Exited? && expected == 0 && status.code != allowed % 0x100 && tr.note.None?))
      && (v.rtype == Pass ==> v.note == Some(Passed))
  {
    if status.Exited? {
      assert SignedChar(status.code) == SignedChar(allowed) <==> status.code == allowed % 0x100;
    }
  }
}
