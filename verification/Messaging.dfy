/** The message pipes of src/check_msg.c: two static files used as a stack, the
    second one for a run started inside a test. */
module Messaging {
  import opened Base
  import opened Codec
  import opened Receive
  import opened Results

  type Pipe = seq<byte>

  // ---------- the stack ----------

  datatype Op = Open | Close | Send(msg: Msg) | Drain

  /** What an operation does to the stack of pipes; None is eprintf. */
  ghost function Apply(stack: seq<Pipe>, op: Op, max: nat): Option<seq<Pipe>> {
    var n := |stack|;
    match op
    case Open => if n < 2 then Some(stack + [[]]) else None
    case Close => if n > 0 then Some(stack[..n - 1]) else None
    case Send(m) =>
      if n > 0 && Sendable(m, max) then Some(stack[..n - 1] + [stack[n - 1] + Encode(m)]) else None
    case Drain =>
      if n > 0 && ReadPipe(stack[n - 1], max).Some? then Some(stack[..n - 1] + [[]]) else None
  }

  /** What punpack makes of a pipe; None is an error or NULL. */
  function ReadPipe(p: Pipe, max: nat): Option<Rcv> {
    match ParseAll(p, 2 * max)
    case None => None
    case Some(ms) => Received(ms)
  }

  ghost function ApplyAll(stack: seq<Pipe>, ops: seq<Op>, max: nat): Option<seq<Pipe>>
    decreases |ops|
  {
    if ops == [] then
      Some(stack)
    else
      var s := Apply(stack, ops[0], max);
      if s.None? then None else ApplyAll(s.value, ops[1..], max)
  }

  /** At every step there are more than `d` pipes. */
  ghost predicate StaysAbove(stack: seq<Pipe>, ops: seq<Op>, d: nat, max: nat)
    decreases |ops|
  {
    && |stack| > d
    && (ops != [] && Apply(stack, ops[0], max).Some? ==>
          StaysAbove(Apply(stack, ops[0], max).value, ops[1..], d, max))
  }

  lemma {:induction false} DepthAtMostTwo(stack: seq<Pipe>, ops: seq<Op>, max: nat)
    requires |stack| <= 2
    ensures ApplyAll(stack, ops, max).Some? ==> |ApplyAll(stack, ops, max).value| <= 2
    decreases |ops|
  {
    if ops != [] && Apply(stack, ops[0], max).Some? {
      DepthAtMostTwo(Apply(stack, ops[0], max).value, ops[1..], max);
    }
  }

  /** Operations that stay above a level leave every pipe below it alone. */
  lemma {:induction false} LowerPipesUntouched(stack: seq<Pipe>, ops: seq<Op>, d: nat, max: nat)
    requires StaysAbove(stack, ops, d, max)
    requires ApplyAll(stack, ops, max).Some?
    ensures |ApplyAll(stack, ops, max).value| > d && ApplyAll(stack, ops, max).value[..d] == stack[..d]
    decreases |ops|
  {
    if ops != [] {
      var s := Apply(stack, ops[0], max).value;
      LowerPipesUntouched(s, ops[1..], d, max);
      assert s[..d] == stack[..d];
    }
  }

  lemma {:induction false} ApplyAllAppend(stack: seq<Pipe>, a: seq<Op>, b: seq<Op>, max: nat)
    ensures ApplyAll(stack, a + b, max) ==
            (var s := ApplyAll(stack, a, max); if s.None? then None else ApplyAll(s.value, b, max))
    decreases |a|
  {
    if a == [] {
      assert a + b == b;
    } else {
      assert (a + b)[0] == a[0] && (a + b)[1..] == a[1..] + b;
      if Apply(stack, a[0], max).Some? {
        ApplyAllAppend(Apply(stack, a[0], max).value, a[1..], b, max);
      }
    }
  }

  /** A nested run, from opening its pipe to closing it, leaves the outer test's
      messages exactly as they were. */
  lemma NestedRunIsInvisible(outer: seq<Pipe>, run: seq<Op>, max: nat)
    requires |outer| < 2
    requires StaysAbove(outer + [[]], run, |outer|, max)
    requires ApplyAll(outer + [[]], run, max).Some?
    requires |ApplyAll(outer + [[]], run, max).value| == |outer| + 1
    ensures ApplyAll(outer, [Open] + run + [Close], max) == Some(outer)
  {
    LowerPipesUntouched(outer + [[]], run, |outer|, max);
    var inner := ApplyAll(outer + [[]], run, max).value;
    assert (outer + [[]])[..|outer|] == outer;
    assert [Open][1..] == [] && [Close][1..] == [];
    assert ApplyAll(outer, [Open], max) == Some(outer + [[]]);
    ApplyAllAppend(outer, [Open], run, max);
    ApplyAllAppend(outer, [Open] + run, [Close], max);
    assert ApplyAll(inner, [Close], max) == ApplyAll(inner[..|outer|], [], max);
  }

  // ---------- the two files ----------

  class Pipes {
    var file1: Option<Pipe>
    var file2: Option<Pipe>

    ghost predicate Valid()
      reads this
    {
      file2.Some? ==> file1.Some?
    }

    ghost function Stack(): (s: seq<Pipe>)
      requires Valid()
      reads this
      ensures |s| <= 2
    {
      (if file1.Some? then [file1.value] else []) + (if file2.Some? then [file2.value] else [])
    }

    constructor ()
      ensures Valid() && Stack() == []
    {
      file1, file2 := None, None;
    }

    method SetupPipe() returns (r: Outcome<()>)
      requires Valid()
      modifies this
      ensures Valid() && (r.Ok? <==> Apply(old(Stack()), Open, 0).Some?)
      ensures Stack() == if r.Ok? then Apply(old(Stack()), Open, 0).value else old(Stack())
    {
      if file1.None? {
        file1 := Some([]);
        return Ok(());
      }
      if file2.None? {
        file2 := Some([]);
        return Ok(());
      }
      r := Err(TooDeep);
    }

    method TeardownPipe() returns (r: Outcome<()>)
      requires Valid()
      modifies this
      ensures Valid() && (r.Ok? <==> Apply(old(Stack()), Close, 0).Some?)
      ensures Stack() == if r.Ok? then Apply(old(Stack()), Close, 0).value else old(Stack())
    {
      if file2.Some? {
        file2 := None;
        r := Ok(());
      } else if file1.Some? {
        file1 := None;
        r := Ok(());
      } else {
        r := Err(NoPipe);
      }
    }

    /** get_pipe: the innermost open file. */
    method GetPipe() returns (r: Outcome<Pipe>)
      requires Valid()
      ensures r.Ok? <==> Stack() != []
      ensures r.Ok? ==> r.value == Stack()[|Stack()| - 1]
    {
      if file2.Some? {
        return Ok(file2.value);
      }
      if file1.Some? {
        return Ok(file1.value);
      }
      r := Err(NoPipe);
    }

    /** The send_*_info functions: ppack to the innermost file. A message that does
        not pack or is too long is refused and nothing is written. */
    method SendInfo(raw: RawMsg, max: nat) returns (r: Outcome<()>)
      requires Valid()
      modifies this
      ensures Valid() && (r.Ok? <==> Apply(old(Stack()), Send(Denote(raw)), max).Some?)
      ensures Stack() == if r.Ok? then Apply(old(Stack()), Send(Denote(raw)), max).value else old(Stack())
    {
      var pipe :- GetPipe();
      var buf :- Pack(raw);
      if buf.Length > max {
        return Err(TooLong);
      }
      if file2.Some? {
        file2 := Some(pipe + buf[..]);
      } else {
        file1 := Some(pipe + buf[..]);
      }
      r := Ok(());
    }

    /** receive_test_result: reads the innermost file through punpack's window,
        replaces it by an empty one and builds the result. */
    method ReceiveTestResult(wasError: bool, max: nat) returns (r: Outcome<TestResult>)
      requires Valid() && 0 < max
      modifies this
      ensures Valid()
      ensures r.Ok? <==> Apply(old(Stack()), Drain, max).Some?
      ensures Stack() == if r.Ok? then Apply(old(Stack()), Drain, max).value else old(Stack())
      ensures r.Ok? ==>
                r.value == Construct(ReadPipe(old(Stack())[|old(Stack())| - 1], max).value, wasError)
    {
      var pipe :- GetPipe();
      var f := new File(pipe);
      assert f.bytes[f.pos..] == pipe;
      var rmsg :- Punpack(f, max);
      if rmsg == null {
        return Err(NoContext);
      }
      var closed := TeardownPipe();
      var reopened := SetupPipe();
      assert closed.Ok? && reopened.Ok?;
      var tr := ConstructTestResult(rmsg, wasError);
      r := Ok(tr);
    }
  }
}
