/** The list of src/check_list.c: a doubling array with one embedded cursor. */
module CheckList {
  import opened Base

  const LINIT: nat := 1
  const LGROW: nat := 2

  /** A word of the allocated array; memory from malloc is `Junk` until written. */
  datatype Slot<+T> = Junk | Full(val: T)

  predicate PowerOfTwo(n: nat) {
    n == 1 || (n > 1 && n % 2 == 0 && PowerOfTwo(n / 2))
  }

  lemma {:induction false} PowersApart(p: nat, q: nat)
    requires PowerOfTwo(p) && PowerOfTwo(q) && p < q
    ensures p <= q / 2
  {
    if p > 1 {
      PowersApart(p / 2, q / 2);
    }
  }

  class List<T(==)> {
    var nElts: nat
    var maxElts: nat
    var current: int
    var last: int
    var data: array<Slot<T>>

    /** The elements, in order. */
    ghost var elems: seq<T>
    /** How many elements growing the array has copied so far. */
    ghost var copied: nat

    /** The array holds the elements, doubled no more often than needed. */
    ghost predicate Stored()
      reads this`nElts, this`maxElts, this`last, this`data, this`elems, this`copied, data
    {
      && nElts == |elems| <= maxElts == data.Length
      && last == nElts - 1
      && (forall i :: 0 <= i < nElts ==> data[i] == Full(elems[i]))
      && PowerOfTwo(maxElts)
      && (maxElts == 1 || maxElts / 2 < nElts)
      && copied == maxElts - 1
    }

    ghost predicate Valid()
      reads this, data
    {
      && Stored()
      && (if elems == [] then current == -1 else 0 <= current <= |elems|)
    }

    constructor ()
      ensures Valid() && elems == [] && fresh(data)
    {
      nElts, maxElts := 0, LINIT;
      data := new Slot<T>[LINIT](_ => Junk);
      current, last := -1, -1;
      elems, copied := [], 0;
    }

    /** maybe_grow: afterwards there is room for one more. */
    method MaybeGrow()
      requires Valid()
      modifies this`maxElts, this`data, this`copied
      ensures nElts < maxElts == data.Length && (data == old(data) || fresh(data))
      ensures forall i :: 0 <= i < nElts ==> data[i] == Full(elems[i])
      ensures PowerOfTwo(maxElts) && (maxElts == 1 || maxElts / 2 <= nElts) && copied == maxElts - 1
    {
      if nElts >= maxElts {
        var bigger := new Slot<T>[maxElts * LGROW](_ => Junk);
        for i := 0 to nElts
          modifies bigger
          invariant forall k :: 0 <= k < i ==> bigger[k] == data[k]
        {
          bigger[i] := data[i];
        }
        copied := copied + nElts;
        maxElts, data := maxElts * LGROW, bigger;
      }
    }

    method AddEnd(val: T)
      requires Valid()
      modifies this, data
      ensures Valid() && (data == old(data) || fresh(data))
      ensures elems == old(elems) + [val]
      ensures current == |elems| - 1
    {
      MaybeGrow();
      last := last + 1;
      nElts := nElts + 1;
      current := last;
      data[current] := Full(val);
      elems := elems + [val];
    }

    method AddFront(val: T)
      requires Valid()
      modifies this, data
      ensures Valid() && (data == old(data) || fresh(data))
      ensures elems == [val] + old(elems)
      ensures current == 0
    {
      MaybeGrow();
      ShiftUp();
      last := last + 1;
      nElts := nElts + 1;
      current := 0;
      data[current] := Full(val);
      elems := [val] + elems;
    }

    /** memmove(data + 1, data, n): every element one place up. */
    method ShiftUp()
      requires nElts == |elems| < data.Length
      requires forall i :: 0 <= i < nElts ==> data[i] == Full(elems[i])
      modifies data
      ensures forall i :: 1 <= i <= nElts ==> data[i] == Full(elems[i - 1])
    {
      for i := nElts downto 0
        invariant forall k :: 0 <= k < i ==> data[k] == Full(elems[k])
        invariant forall k :: i < k <= nElts ==> data[k] == Full(elems[k - 1])
      {
        data[i + 1] := data[i];
      }
    }

    predicate AtEnd()
      requires Valid()
      reads this, data
      ensures AtEnd() <==> (elems == [] || current == |elems|)
    {
      current == -1 || current > last
    }

    method Front()
      requires Valid()
      modifies this`current
      ensures Valid()
      ensures elems != [] ==> current == 0
    {
      if current == -1 {
        return;
      }
      current := 0;
    }

    /** The element under the cursor, or NULL past the end. */
    method Val() returns (r: Option<T>)
      requires Valid()
      ensures r == if AtEnd() then None else Some(elems[current])
    {
      if current == -1 || current > last {
        return None;
      }
      r := Some(data[current].val);
    }

    method Advance()
      requires Valid()
      modifies this`current
      ensures Valid()
      ensures current == if old(AtEnd()) then old(current) else old(current) + 1
    {
      if AtEnd() {
        return;
      }
      current := current + 1;
    }

    /** check_list_apply: calls the function on every element once, in order. */
    method Apply() returns (called: seq<T>)
      requires Valid()
      modifies this`current
      ensures Valid() && AtEnd()
      ensures called == elems
    {
      called := [];
      Front();
      while !AtEnd()
        invariant Valid()
        invariant called == if elems == [] then [] else elems[..current]
        decreases |elems| - current
      {
        var v := Val();
        called := called + [v.value];
        Advance();
      }
    }

    method Contains(val: T) returns (found: bool)
      requires Valid()
      modifies this`current
      ensures Valid()
      ensures found <==> val in elems
    {
      Front();
      while !AtEnd()
        invariant Valid()
        invariant elems != [] ==> val !in elems[..current]
        decreases |elems| - current
      {
        var v := Val();
        if v.value == val {
          return true;
        }
        Advance();
      }
      found := false;
    }

    /** The capacity is the least power of two with room for the elements, and all
        growing together copied fewer than two elements per element stored. */
    lemma CapacityAndCost(p: nat)
      requires Valid()
      ensures PowerOfTwo(p) && p >= |elems| ==> maxElts <= p
      ensures PowerOfTwo(maxElts) && maxElts >= |elems|
      ensures elems != [] ==> copied <= 2 * |elems| - 1
      ensures elems == [] ==> copied == 0
    {
      if PowerOfTwo(p) && p >= |elems| && p < maxElts {
        PowersApart(p, maxElts);
      }
    }
  }
}
