/** ppack called from any number of threads (src/check_pack.c:366-389): each
    message is packed privately, then written byte by byte under a mutex. A run
    may be cut anywhere, by exit or by a signal. */
module Append {
  import opened Base
  import opened Codec
  import opened Receive

  datatype Writer = Writer(thread: nat, msg: Msg, written: nat)

  /** `log` records which thread's message was completed when; it is history, not
      part of what the threads see. */
  datatype State = State(
    file: seq<byte>,
    holder: Option<Writer>,
    todo: seq<seq<Msg>>,
    log: seq<(nat, Msg)>)

  ghost predicate Init(s: State, programs: seq<seq<Msg>>) {
    s == State([], None, programs, [])
  }

  /** A thread takes the lock for its next message, which passed ppack's checks. */
  ghost predicate Acquire(s: State, s': State, t: nat, max: nat) {
    && s.holder.None?
    && t < |s.todo| && s.todo[t] != []
    && Sendable(s.todo[t][0], max)
    && s' == s.(holder := Some(Writer(t, s.todo[t][0], 0)), todo := s.todo[t := s.todo[t][1..]])
  }

  ghost predicate WriteByte(s: State, s': State) {
    && s.holder.Some?
    && Packable(s.holder.value.msg)
    && s.holder.value.written < WireSize(s.holder.value.msg)
    && s' == s.(file := s.file + [Encode(s.holder.value.msg)[s.holder.value.written]],
                holder := Some(s.holder.value.(written := s.holder.value.written + 1)))
  }

  ghost predicate Release(s: State, s': State) {
    && s.holder.Some?
    && s.holder.value.written == WireSize(s.holder.value.msg)
    && s' == s.(holder := None, log := s.log + [(s.holder.value.thread, s.holder.value.msg)])
  }

  ghost predicate Step(s: State, s': State, max: nat) {
    || (exists t: nat :: Acquire(s, s', t, max))
    || WriteByte(s, s')
    || Release(s, s')
  }

  /** Every interleaving: a sequence of states, each a step from the one before. */
  ghost predicate Run(run: seq<State>, programs: seq<seq<Msg>>, max: nat) {
    && run != []
    && Init(run[0], programs)
    && (forall i :: 0 < i < |run| ==> Step(run[i - 1], run[i], max))
  }

  // ---------- the history ----------

  function Messages(log: seq<(nat, Msg)>): seq<Msg> {
    if log == [] then [] else Messages(log[..|log| - 1]) + [log[|log| - 1].1]
  }

  /** The messages of one thread, in the order they were completed. */
  function OfThread(log: seq<(nat, Msg)>, t: nat): seq<Msg> {
    if log == [] then
      []
    else
      var before := OfThread(log[..|log| - 1], t);
      if log[|log| - 1].0 == t then before + [log[|log| - 1].1] else before
  }

  lemma OfThreadSnoc(log: seq<(nat, Msg)>, e: (nat, Msg), t: nat)
    ensures OfThread(log + [e], t) == OfThread(log, t) + if e.0 == t then [e.1] else []
  {
    var l := log + [e];
    assert l[..|l| - 1] == log && l[|l| - 1] == e;
  }

  /** The message a thread is in the middle of writing. */
  function InHand(s: State, t: nat): seq<Msg> {
    if s.holder.Some? && s.holder.value.thread == t then [s.holder.value.msg] else []
  }

  /** The part of the file that belongs to a message not yet finished. */
  ghost function Torn(s: State): seq<byte>
    requires s.holder.Some? ==> Packable(s.holder.value.msg) && s.holder.value.written <= WireSize(s.holder.value.msg)
  {
    if s.holder.None? then [] else Encode(s.holder.value.msg)[..s.holder.value.written]
  }

  ghost predicate FileInv(s: State, max: nat) {
    && AllWithin(Messages(s.log), max)
    && AllPackable(Messages(s.log))
    && (s.holder.Some? ==>
          && Sendable(s.holder.value.msg, max)
          && s.holder.value.written <= WireSize(s.holder.value.msg))
    && s.file == EncodeAll(Messages(s.log)) + Torn(s)
  }

  /** What a thread finished, has in hand and still has to do is its program. */
  ghost predicate ThreadInv(s: State, t: nat, program: seq<Msg>) {
    t < |s.todo| && OfThread(s.log, t) + InHand(s, t) + s.todo[t] == program
  }

  /** Every message was sent by one of the threads. */
  predicate OwnedBy(log: seq<(nat, Msg)>, n: nat) {
    forall i :: 0 <= i < |log| ==> log[i].0 < n
  }

  ghost predicate Inv(s: State, programs: seq<seq<Msg>>, max: nat) {
    && FileInv(s, max)
    && |s.todo| == |programs|
    && OwnedBy(s.log, |programs|)
    && (s.holder.Some? ==> s.holder.value.thread < |programs|)
    && (forall t: nat :: t < |programs| ==> ThreadInv(s, t, programs[t]))
  }

  // ---------- every step keeps the invariant ----------

  lemma AcquireKeeps(s: State, s': State, t: nat, programs: seq<seq<Msg>>, max: nat)
    requires Inv(s, programs, max) && Acquire(s, s', t, max)
    ensures Inv(s', programs, max)
  {
    assert Torn(s') == Torn(s) == [];
    forall u: nat | u < |programs|
      ensures ThreadInv(s', u, programs[u])
    {
      assert ThreadInv(s, u, programs[u]);
      if u == t {
        TakeNext(OfThread(s.log, t), s.todo[t]);
      }
    }
  }

  lemma TakeNext(done: seq<Msg>, todo: seq<Msg>)
    requires todo != []
    ensures done + [] + todo == done + [todo[0]] + todo[1..]
  {
    assert todo == [todo[0]] + todo[1..];
  }

  lemma WriteByteKeeps(s: State, s': State, programs: seq<seq<Msg>>, max: nat)
    requires Inv(s, programs, max) && WriteByte(s, s')
    ensures Inv(s', programs, max)
  {
    var w := s.holder.value;
    var e := Encode(w.msg);
    assert e[..w.written + 1] == e[..w.written] + [e[w.written]];
    ConcatAssoc(EncodeAll(Messages(s.log)), e[..w.written], [e[w.written]]);
    forall u: nat | u < |programs|
      ensures ThreadInv(s', u, programs[u])
    {
      assert ThreadInv(s, u, programs[u]);
    }
  }

  lemma MessagesSnoc(log: seq<(nat, Msg)>, e: (nat, Msg))
    ensures Messages(log + [e]) == Messages(log) + [e.1]
  {
    var l := log + [e];
    assert l[..|l| - 1] == log && l[|l| - 1] == e;
  }

  lemma WithinSnoc(ms: seq<Msg>, m: Msg, max: nat)
    requires AllWithin(ms, max) && AllPackable(ms) && Sendable(m, max)
    ensures AllWithin(ms + [m], max) && AllPackable(ms + [m]) && EncodeAll(ms + [m]) == EncodeAll(ms) + Encode(m)
  {
    EncodeOne(ms, m);
  }

  lemma ReleaseKeepsFile(s: State, s': State, max: nat)
    requires FileInv(s, max) && Release(s, s')
    ensures FileInv(s', max)
  {
    var w := s.holder.value;
    MessagesSnoc(s.log, (w.thread, w.msg));
    WithinSnoc(Messages(s.log), w.msg, max);
    assert Torn(s) == Encode(w.msg) by {
      assert Encode(w.msg)[..w.written] == Encode(w.msg);
    }
    assert s'.file + [] == s'.file;
  }

  lemma ReleaseKeepsThread(s: State, s': State, t: nat, program: seq<Msg>)
    requires ThreadInv(s, t, program) && Release(s, s')
    ensures ThreadInv(s', t, program)
  {
    var w := s.holder.value;
    OfThreadSnoc(s.log, (w.thread, w.msg), t);
    assert OfThread(s.log, t) + InHand(s, t) + [] == OfThread(s.log, t) + InHand(s, t);
  }

  lemma ReleaseKeeps(s: State, s': State, programs: seq<seq<Msg>>, max: nat)
    requires Inv(s, programs, max) && Release(s, s')
    ensures Inv(s', programs, max)
  {
    ReleaseKeepsFile(s, s', max);
    forall u: nat | u < |programs|
      ensures ThreadInv(s', u, programs[u])
    {
      ReleaseKeepsThread(s, s', u, programs[u]);
    }
  }

  lemma {:induction false} RunKeeps(run: seq<State>, programs: seq<seq<Msg>>, max: nat, i: nat)
    requires Run(run, programs, max) && i < |run|
    ensures Inv(run[i], programs, max)
  {
    if i == 0 {
      assert EncodeAll([]) + [] == [];
      forall t: nat | t < |programs|
        ensures ThreadInv(run[0], t, programs[t])
      {
        assert [] + [] + programs[t] == programs[t];
      }
    } else {
      RunKeeps(run, programs, max, i - 1);
      var s, s' := run[i - 1], run[i];
      assert Step(s, s', max);
      if WriteByte(s, s') {
        WriteByteKeeps(s, s', programs, max);
      } else if Release(s, s') {
        ReleaseKeeps(s, s', programs, max);
      } else {
        var t: nat :| Acquire(s, s', t, max);
        AcquireKeeps(s, s', t, programs, max);
      }
    }
  }

  // ---------- what a reader finds ----------

  /** The messages that are whole in the file: those of finished calls, and that of a
      thread which has written its last byte and not yet released the lock. */
  function Whole(s: State): seq<(nat, Msg)> {
    s.log + if s.holder.Some? && 0 < s.holder.value.written == WireSize(s.holder.value.msg)
            then [(s.holder.value.thread, s.holder.value.msg)] else []
  }

  /** An order-preserving merge of beginnings of the programs: every message is some
      thread's, and those of each thread begin its program, in its order. */
  ghost predicate Merges(log: seq<(nat, Msg)>, programs: seq<seq<Msg>>) {
    && OwnedBy(log, |programs|)
    && forall t: nat :: t < |programs| ==> OfThread(log, t) <= programs[t]
  }

  /** For every interleaving and every point at which it is looked at, or cut: the file
      parses if and only if no message is half written, and then to the messages that
      are whole in it, an order-preserving merge of what the threads sent. */
  lemma AppendIsAtomic(run: seq<State>, programs: seq<seq<Msg>>, max: nat, i: nat)
    requires Run(run, programs, max) && i < |run|
    ensures Merges(Whole(run[i]), programs)
    ensures
      var s := run[i];
      var torn := s.holder.Some? && 0 < s.holder.value.written < WireSize(s.holder.value.msg);
      ParseAll(s.file, 2 * max) == if torn then None else Some(Messages(Whole(s)))
  {
    RunKeeps(run, programs, max, i);
    WholeMerges(run[i], programs, max);
    FileParses(run[i], max);
  }

  lemma WholeMerges(s: State, programs: seq<seq<Msg>>, max: nat)
    requires Inv(s, programs, max)
    ensures Merges(Whole(s), programs)
  {
    var more := Whole(s)[|s.log|..];
    assert Whole(s) == s.log + more;
    forall t: nat | t < |programs|
      ensures OfThread(Whole(s), t) <= programs[t]
    {
      assert ThreadInv(s, t, programs[t]);
      if more != [] {
        OfThreadSnoc(s.log, more[0], t);
      } else {
        assert s.log + [] == s.log;
      }
      BeginsProgram(OfThread(s.log, t), InHand(s, t), s.todo[t], programs[t]);
    }
  }

  lemma BeginsProgram(done: seq<Msg>, hand: seq<Msg>, todo: seq<Msg>, program: seq<Msg>)
    requires done + hand + todo == program
    ensures done <= program && done + hand <= program && done + [] <= program
  {
    ConcatAssoc(done, hand, todo);
  }

  lemma WithinMore(ms: seq<Msg>, max: nat)
    requires AllWithin(ms, max)
    ensures AllWithin(ms, 2 * max)
  {
  }

  lemma FileParses(s: State, max: nat)
    requires FileInv(s, max)
    ensures
      var torn := s.holder.Some? && 0 < s.holder.value.written < WireSize(s.holder.value.msg);
      ParseAll(s.file, 2 * max) == if torn then None else Some(Messages(Whole(s)))
  {
    var ms := Messages(s.log);
    WithinMore(ms, max);
    if s.holder.None? || s.holder.value.written == 0 {
      assert EncodeAll(ms) + [] == EncodeAll(ms);
      ParseWhole(ms, 2 * max);
      assert s.log + [] == s.log;
    } else {
      var w := s.holder.value;
      if w.written < WireSize(w.msg) {
        TornFileIsRejected(ms, w.msg, w.written, 2 * max);
      } else {
        assert Encode(w.msg)[..w.written] == Encode(w.msg);
        MessagesSnoc(s.log, (w.thread, w.msg));
        OneMore(ms, w.msg, max);
      }
    }
  }

  lemma OneMore(ms: seq<Msg>, m: Msg, max: nat)
    requires AllWithin(ms, max) && AllPackable(ms) && Sendable(m, max)
    ensures ParseAll(EncodeAll(ms) + Encode(m), 2 * max) == Some(ms + [m])
  {
    WithinSnoc(ms, m, max);
    WithinMore(ms + [m], max);
    ParseWhole(ms + [m], 2 * max);
  }

  // ---------- progress ----------

  /** Some thread can do something: the holder of the lock, or one whose next message
      passes ppack's checks. */
  ghost predicate Unfinished(s: State, max: nat) {
    s.holder.Some? || exists t: nat :: t < |s.todo| && s.todo[t] != [] && Sendable(s.todo[t][0], max)
  }

  /** Nobody waits for ever: there is a next step if and only if something is unfinished. */
  lemma StepIff(s: State, programs: seq<seq<Msg>>, max: nat)
    requires Inv(s, programs, max)
    ensures (exists s' :: Step(s, s', max)) <==> Unfinished(s, max)
  {
    if Unfinished(s, max) {
      var s' := NextStep(s, max);
      assert Step(s, s', max);
    }
  }

  lemma NextStep(s: State, max: nat) returns (s': State)
    requires FileInv(s, max) && Unfinished(s, max)
    ensures Step(s, s', max)
  {
    if s.holder.None? {
      var t: nat :| t < |s.todo| && s.todo[t] != [] && Sendable(s.todo[t][0], max);
      s' := s.(holder := Some(Writer(t, s.todo[t][0], 0)), todo := s.todo[t := s.todo[t][1..]]);
      assert Acquire(s, s', t, max);
    } else {
      var w := s.holder.value;
      if w.written < WireSize(w.msg) {
        s' := s.(file := s.file + [Encode(w.msg)[w.written]], holder := Some(w.(written := w.written + 1)));
        assert WriteByte(s, s');
      } else {
        s' := s.(holder := None, log := s.log + [(w.thread, w.msg)]);
        assert Release(s, s');
      }
    }
  }

  /** Where no step is left, the file holds every thread's program, up to its first
      message that ppack refuses (which ends the process). */
  lemma EndHoldsPrograms(run: seq<State>, programs: seq<seq<Msg>>, max: nat, i: nat)
    requires Run(run, programs, max) && i < |run| && (forall s' :: !Step(run[i], s', max))
    ensures ParseAll(run[i].file, 2 * max) == Some(Messages(run[i].log)) && OwnedBy(run[i].log, |programs|)
    ensures forall t: nat :: t < |programs| ==>
              var sent := OfThread(run[i].log, t);
              sent <= programs[t] && (sent == programs[t] || !Sendable(programs[t][|sent|], max))
  {
    var s := run[i];
    RunKeeps(run, programs, max, i);
    StepIff(s, programs, max);
    FileParses(s, max);
    assert s.log + [] == s.log;
    forall t: nat | t < |programs|
      ensures
        var sent := OfThread(s.log, t);
        sent <= programs[t] && (sent == programs[t] || !Sendable(programs[t][|sent|], max))
    {
      assert ThreadInv(s, t, programs[t]);
      BeginsProgram(OfThread(s.log, t), [], s.todo[t], programs[t]);
      assert OfThread(s.log, t) + [] == OfThread(s.log, t);
    }
  }
}
