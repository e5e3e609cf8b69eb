/** ck_strdup_printf of src/check_str.c: format, and try again with more room. */
module StrdupPrintf {
  import opened Base
  import opened Sink
  import opened Directive
  import opened Format

  const FIRST_SIZE := 100

  /** A size_t as a C int. */
  function AsInt(size: nat): int {
    SignedIn(size, TWO_32)
  }

  /** The room that a text of this length ends up with. */
  function Needed(n: int): int {
    if n < FIRST_SIZE then FIRST_SIZE else n + 1
  }

  /** A buffer that begins with the text and its NUL. */
  predicate Begins(buffer: seq<char>, text: seq<char>) {
    |text| < |buffer| && buffer[..|text| + 1] == text + ['\0']
  }

  lemma WholeTextHeld(buffer: seq<char>, text: seq<char>, size: nat, before: seq<char>)
    requires |text| < size == |before| && Holds(buffer, text, size, before)
    ensures Begins(buffer, text)
  {
    assert text[..|text|] == text;
  }

  /** One try in a buffer of this size. */
  method Attempt(size: nat, format: seq<char>, sep: seq<char>, args: seq<Arg>, ghost goal: Result)
    returns (p: array<char>, n: int)
    requires '\0' in format && goal == Render(TextOf(format), sep, args) && goal != Undefined
    ensures n == Returned(goal) && p.Length == size
    ensures n >= 0 && n < size ==> Begins(p[..], goal.text)
  {
    p := new char[size];
    ghost var before := p[..];
    n := Vsnprintf(p, size, format, sep, args);
    if n >= 0 && n < size {
      WholeTextHeld(p[..], goal.text, size, before);
    }
  }

  /** With `limit` bytes of memory: the complete text, after at most two attempts, if
      and only if it can be formatted and the room it needs can be had; otherwise
      the allocation that fails ends the program. */
  method StrdupPrintf(format: seq<char>, sep: seq<char>, args: seq<Arg>, limit: nat)
    returns (p: Option<array<char>>, attempts: nat)
    requires '\0' in format && Render(TextOf(format), sep, args) != Undefined
    ensures
      var r := Render(TextOf(format), sep, args);
      && (p.Some? <==> Returned(r) >= 0 && Needed(Returned(r)) <= limit)
      && (p.Some? ==> Begins(p.value[..], r.text) && p.value.Length == Needed(Returned(r)))
      && (Returned(r) >= 0 ==> attempts <= 2)
  {
    ghost var goal := Render(TextOf(format), sep, args);
    ghost var result := Returned(goal);
    var size: nat := FIRST_SIZE;
    attempts := 0;
    while size <= limit
      invariant size >= FIRST_SIZE
      invariant result >= 0 ==> (size == FIRST_SIZE && attempts == 0) || (size == Needed(result) && attempts == 1)
      decreases if result >= 0 then 2 - attempts else limit - size
    {
      var buffer, n := Attempt(size, format, sep, args, goal);
      attempts := attempts + 1;
      if n > -1 && n < AsInt(size) {
        return Some(buffer), attempts;
      }
      if n > -1 {
        size := n + 1;
      } else {
        size := 2 * size;
      }
    }
    p := None;
  }
}
