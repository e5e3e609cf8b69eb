/** Bounded output as lib/snprintf.c writes it: OUTCHAR counts every character
    and stores those that leave room for the terminating NUL. */
module Sink {

  function Min(a: int, b: int): int {
    if a <= b then a else b
  }

  function Max(a: int, b: int): int {
    if a >= b then a else b
  }

  /** How many of `n` characters fit a buffer of this size. */
  function Room(size: nat, n: nat): nat {
    if size == 0 then 0 else Min(n, size - 1)
  }

  /** A buffer that held `orig` after the text was written into its first `size` cells. */
  function Shown(text: seq<char>, size: nat, orig: seq<char>): (r: seq<char>)
    requires size <= |orig|
    ensures |r| == |orig|
  {
    text[..Room(size, |text|)] + orig[Room(size, |text|)..]
  }

  function Repeat(c: char, n: int): (s: seq<char>)
    ensures |s| == Max(n, 0)
    ensures forall i :: 0 <= i < |s| ==> s[i] == c
    decreases n
  {
    if n <= 0 then [] else Repeat(c, n - 1) + [c]
  }

  class Out {
    const str: array<char>
    const size: nat
    var len: nat

    /** The whole text so far, as an unbounded buffer would hold it. */
    ghost var text: seq<char>
    /** What the buffer held at first. */
    ghost const orig: seq<char>

    ghost predicate Valid()
      reads this, str
    {
      && len == |text|
      && size <= str.Length == |orig|
      && str[..] == Shown(text, size, orig)
    }

    constructor (str: array<char>, size: nat)
      requires size <= str.Length
      ensures Valid() && text == [] && this.str == str && this.size == size && orig == str[..]
    {
      this.str, this.size := str, size;
      len, text, orig := 0, [], str[..];
    }

    /** OUTCHAR. */
    method Emit(c: char)
      requires Valid()
      modifies this, str
      ensures Valid() && text == old(text) + [c]
    {
      ghost var n := Room(size, len);
      assert len + 1 < size ==> n == len;
      if len + 1 < size {
        str[len] := c;
      }
      len := len + 1;
      text := text + [c];
      assert text[..Room(size, len)] == if len < size then old(text) + [c] else old(text)[..n];
    }

    /** The loops that print the same character again and again. */
    method EmitRun(c: char, n: int)
      requires Valid()
      modifies this, str
      ensures Valid() && text == old(text) + Repeat(c, n)
    {
      var left := n;
      assert old(text) + Repeat(c, 0) == old(text);
      while left > 0
        invariant left <= Max(n, 0) && (n < 0 ==> left == n)
        invariant Valid() && text == old(text) + Repeat(c, Max(n, 0) - Max(left, 0))
      {
        Emit(c);
        left := left - 1;
      }
    }

    method EmitAll(s: seq<char>)
      requires Valid()
      modifies this, str
      ensures Valid() && text == old(text) + s
    {
      for i := 0 to |s|
        invariant Valid() && text == old(text) + s[..i]
      {
        Emit(s[i]);
      }
      assert s[..|s|] == s;
    }

    /** The terminating NUL, where there is room for one. */
    method Terminate()
      requires Valid()
      modifies str
      ensures size == 0 ==> str[..] == orig
      ensures size > 0 ==>
                var n := Room(size, |text|);
                str[..] == text[..n] + ['\0'] + orig[n + 1..]
    {
      if len < size {
        str[len] := '\0';
      } else if size > 0 {
        str[size - 1] := '\0';
      }
    }
  }
}
