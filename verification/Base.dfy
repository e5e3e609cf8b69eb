/** Integer widths, C strings and error outcomes shared by every module. */
module Base {

  const INT_MAX := 0x7FFF_FFFF
  const UINT32_MAX := 0xFFFF_FFFF

  type byte = b: int | 0 <= b < 0x100
  type uint32 = v: int | 0 <= v <= UINT32_MAX
  /** A C `int`. */
  type int32 = v: int | -INT_MAX - 1 <= v <= INT_MAX
  /** The characters of a C string, without the terminating NUL. */
  type cstr = s: seq<byte> | forall i :: 0 <= i < |s| ==> s[i] != 0

  datatype Option<+T> = None | Some(value: T)

  /** Why the library gave up. All but `OutOfBuffer` are calls of eprintf, which
      ends the process with status 2; `OutOfBuffer` is a read outside an
      allocated buffer, which C leaves undefined. */
  datatype Error =
    | BadType
    | TooBig
    | TooLong
    | Overrun
    | OutOfBuffer
    | NoContext
    | NoPipe
    | TooDeep

  datatype Outcome<+T> = Ok(value: T) | Err(error: Error) {
    predicate IsFailure() {
      Err?
    }

    function PropagateFailure<U>(): Outcome<U>
      requires Err?
    {
      Err(error)
    }

    function Extract(): T
      requires Ok?
    {
      value
    }
  }

  /** What a C library function sees of a byte array: everything before the first NUL. */
  function CutAtNul(s: seq<byte>): (r: cstr)
    ensures r <= s
    ensures |r| < |s| ==> s[|r|] == 0
  {
    if s == [] || s[0] == 0 then
      []
    else
      var tail := CutAtNul(s[1..]);
      assert forall i :: 0 < i <= |tail| ==> ([s[0]] + tail)[i] == tail[i - 1];
      [s[0]] + tail
  }

  lemma CutAtNulIdentity(s: cstr)
    ensures CutAtNul(s) == s
  {
    var r := CutAtNul(s);
    assert |r| == |s|;
    assert r == s[..|r|];
  }

  lemma ConcatAssoc<T>(a: seq<T>, b: seq<T>, c: seq<T>)
    ensures (a + b) + c == a + (b + c)
  {
  }

  function Reversed<T>(s: seq<T>): (r: seq<T>)
    ensures |r| == |s| && forall i :: 0 <= i < |s| ==> r[i] == s[|s| - 1 - i]
  {
    seq(|s|, i requires 0 <= i < |s| => s[|s| - 1 - i])
  }

  lemma ReversedAppend<T>(a: seq<T>, b: seq<T>)
    ensures Reversed(a + b) == Reversed(b) + Reversed(a)
  {
  }
}
