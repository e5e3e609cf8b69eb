/** What a test deserves to be reported as, read off the user's functions alone: no
    message, pipe or received record occurs here. */
module Expectations {
  import opened Base
  import opened Codec
  import opened Results
  import opened TestRun

  // ---------- one process ----------

  /** The first of the calls k, k+1, ..., k+n-1 that does not return. */
  function FirstStop(env: Env, k: nat, n: nat): (j: Option<nat>)
    ensures j.Some? ==> j.value < n && !env.did(k + j.value).end.Return?
    decreases n
  {
    if n == 0 then
      None
    else if !env.did(k).end.Return? then
      Some(0)
    else
      var r := FirstStop(env, k + 1, n - 1);
      if r.Some? then Some(r.value + 1) else None
  }

  /** Every call before it returns. */
  lemma {:induction false} ReturnsBefore(env: Env, k: nat, n: nat, i: nat)
    requires k <= i < k + (if FirstStop(env, k, n).Some? then FirstStop(env, k, n).value else n)
    ensures env.did(i).end.Return?
    decreases n
  {
    if i > k {
      ReturnsBefore(env, k + 1, n - 1, i);
    }
  }

  /** The locations an execution announced, a failed assertion's included. */
  function PointsOf(e: Act): seq<Point> {
    e.points + if e.end.Assert? then [e.end.at] else []
  }

  function AllPoints(env: Env, k: nat, n: nat): seq<Point>
    decreases n
  {
    if n == 0 then [] else PointsOf(env.did(k)) + AllPoints(env, k + 1, n - 1)
  }

  function Last(ps: seq<Point>): Option<Point> {
    if ps == [] then None else Some(ps[|ps| - 1])
  }

  function At(tr: TestResult, ctx: uint32, p: Option<Point>): TestResult {
    if p.Some? then tr.(ctx := ctx, file := Some(p.value.file), line := p.value.line)
    else tr.(ctx := ctx, file := None, line := -1)
  }

  /** The report of a failed assertion. */
  function Blame(ctx: uint32, end: End, tcname: string, tname: string, i: int, usec: int): TestResult
    requires end.Assert?
  {
    TestResult(Failure, ctx, Some(end.at.file), end.at.line, i, usec, tcname, tname, Some(Text(end.text)))
  }

  /** Without a child, the setups having returned: a failure in the test, else the
      first in a teardown, else a pass where the test was last seen. */
  function ExpectBody(env: Env, tc: Case, tf: TestFun, i: int, k: nat): TestResult {
    var b := env.did(k);
    var t := FirstStop(env, k + 1, |tc.chTeardowns|);
    if b.end.Assert? then
      Blame(CTX_TEST, b.end, tc.name, tf.name, i, b.usec)
    else if t.Some? && env.did(k + 1 + t.value).end.Assert? then
      Blame(CTX_TEARDOWN, env.did(k + 1 + t.value).end, tc.name, tf.name, i, b.usec)
    else
      At(TestResult(Pass, CTX_TEST, None, -1, i, b.usec, tc.name, tf.name, Some(Passed)),
         CTX_TEST, Last([tf.at] + b.points))
  }

  /** How far a child got: the phase it reached, where it was last seen in that
      phase and in the test, how it failed and how it ended. */
  datatype Tale = Tale(
    ctx: uint32, here: Option<Point>, test: Option<Point>, end: End, usec: Option<int32>)

  /** The tale of a child whose setups have returned. */
  function TestTale(env: Env, tc: Case, tf: TestFun, k: nat): Tale {
    var m := |tc.chTeardowns|;
    if !Sends(tf.at, env.max) then
      Tale(CTX_TEST, None, None, Exit(2), None)
    else
      var b := env.did(k);
      var seen := Last([tf.at] + PointsOf(b));
      var t := FirstStop(env, k + 1, m);
      if !b.end.Return? then
        Tale(CTX_TEST, None, seen, b.end, None)
      else if t.Some? then
        Tale(CTX_TEARDOWN, Last(PointsOf(env.did(k + 1 + t.value))), seen, env.did(k + 1 + t.value).end, None)
      else
        var ctx := if m == 0 then CTX_TEST else CTX_TEARDOWN;
        var here := if m == 0 then None else Last(PointsOf(env.did(k + m)));
        if b.usec < 0 then Tale(ctx, here, seen, Exit(2), None) else Tale(ctx, here, seen, Return, Some(b.usec))
  }

  function TaleOf(env: Env, tc: Case, tf: TestFun, k: nat): Tale {
    var s := FirstStop(env, k, |tc.chSetups|);
    if s.Some? then
      Tale(CTX_SETUP, Last(AllPoints(env, k, s.value + 1)), None, env.did(k + s.value).end, None)
    else
      TestTale(env, tc, tf, k + |tc.chSetups|)
  }

  /** The wait status of a process that ended like this. */
  function EndStatus(end: End): Status {
    match end
    case Return => Exited(0)
    case Assert(_, _) => Exited(1)
    case Exit(code) => Exited(code)
    case Die(sig, _) => Signalled(sig)
  }

  /** Something went wrong: a failed assertion, an exit status other than zero, or a
      signal that is not the expected one. */
  predicate Trouble(end: End, expected: int) {
    match end
    case Return => false
    case Assert(_, _) => true
    case Exit(code) => code != 0
    case Die(sig, _) => sig != expected
  }

  datatype Verdict = Verdict(rtype: ResultType, note: Note)

  /** An exit status as the report shows it. */
  function ShownStatus(code: byte): int {
    if code < 0x80 then code else code as int - 0x100
  }

  /** A child that left with a status: wrong if a signal was expected, right if the
      status is the allowed one. */
  function ExitVerdict(code: byte, text: Option<cstr>, expected: int, allowed: int): Verdict {
    if expected != 0 then Verdict(Failure, EarlyExit(ShownStatus(code)))
    else if code == allowed % 0x100 then Verdict(Pass, Passed)
    else if text.Some? then Verdict(Failure, Text(text.value))
    else Verdict(Error, EarlyExit(ShownStatus(code)))
  }

  /** What the end of a child is judged as, and what the report says about it. */
  function VerdictOn(end: End, expected: int, allowed: int): Verdict {
    match end
    case Return => ExitVerdict(0, None, expected, allowed)
    case Assert(_, text) => ExitVerdict(1, Some(text), expected, allowed)
    case Exit(code) => ExitVerdict(code, None, expected, allowed)
    case Die(sig, alarm) =>
      if sig == expected && !alarm then Verdict(Pass, Passed)
      else if expected == 0 && sig != 0 then Verdict(Error, if alarm then TimedOut else GotSignal(sig))
      else Verdict(Error, if alarm then TimedOutExpected(expected) else GotSignalExpected(sig, expected))
  }

  /** Where a child is reported: after trouble in the phase it was in, where it was last
      seen in that phase; otherwise at its test, with the time the test took, unless it
      never got that far. */
  function Place(t: Tale, expected: int, tr: TestResult): TestResult {
    if Trouble(t.end, expected) then
      At(tr, t.ctx, if t.ctx == CTX_TEST then t.test else t.here)
    else if t.ctx == CTX_SETUP then
      At(tr, CTX_SETUP, t.here)
    else
      At(tr.(usec := if t.usec.Some? then t.usec.value else -1), CTX_TEST, t.test)
  }

  function ExpectFork(env: Env, tc: Case, tf: TestFun, i: int, k: nat): TestResult {
    var t := TaleOf(env, tc, tf, k);
    var v := VerdictOn(t.end, tf.signal, tf.allowedExit);
    Place(t, tf.signal,
          TestResult(v.rtype, CTX_INVALID, None, -1, i, -1, tc.name, tf.name, Some(v.note)))
  }

  // ---------- the runner's process ----------

  /** What the runner will come across in the pipe: nothing that matters, or the
      failure of an unchecked teardown that nobody has read yet. */
  datatype Mood = Clear | Tainted(text: cstr)

  /** How a piece of a run goes: a value, the user calls made so far and what is left
      in the pipe; or the end of the runner's process. */
  datatype Outlook<+T> = Goes(value: T, k: nat, mood: Mood) | Ends

  /** Context messages, which take eight bytes, can be sent. */
  predicate Speaks(env: Env) {
    8 <= env.max
  }

  /** The call comes back to a runner in the same process. */
  predicate ComesBack(end: End) {
    end.Return? || end.Assert?
  }

  /** The report of a failure somebody else left in the pipe: it has no location. */
  function Stained(text: cstr, tcname: string, tname: string, i: int, usec: int): TestResult {
    TestResult(Failure, CTX_TEARDOWN, None, -1, i, usec, tcname, tname, Some(Text(text)))
  }

  /** Calls up to and including the first that does not return. */
  function CallsMade(env: Env, k: nat, n: nat): (c: nat)
    ensures c <= n
  {
    var s := FirstStop(env, k, n);
    if s.Some? then s.value + 1 else n
  }

  // ---------- test cases ----------

  function Calls(role: Role, fs: seq<Fixture>): (cs: seq<Call>)
    ensures |cs| == |fs|
    decreases |fs|
  {
    if fs == [] then [] else [Call(role, fs[0])] + Calls(role, fs[1..])
  }

  /** A test with one value of its loop variable. */
  datatype Item = Item(tf: TestFun, i: int)

  function LoopItems(tf: TestFun, i: int): (r: seq<Item>)
    ensures |r| == if i < tf.loopEnd then tf.loopEnd - i else 0
    decreases tf.loopEnd - i
  {
    if i >= tf.loopEnd then [] else [Item(tf, i)] + LoopItems(tf, i + 1)
  }

  function Items(tfs: seq<TestFun>): seq<Item>
    decreases |tfs|
  {
    if tfs == [] then [] else LoopItems(tfs[0], tfs[0].loopStart) + Items(tfs[1..])
  }

  /** A case: whether its unchecked setups passed, and its results. */
  datatype CaseRun = CaseRun(tc: Case, ready: bool, results: seq<TestResult>)
}
