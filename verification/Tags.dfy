/** Tag strings: tag_string_to_list splits at blanks with strtok. */
module Tags {
  import opened Base
  import opened CheckList

  /** The characters before the first blank. */
  function Word(s: string): (w: string)
    ensures w <= s
    ensures forall i :: 0 <= i < |w| ==> w[i] != ' '
    ensures |w| < |s| ==> s[|w|] == ' '
  {
    if s == [] || s[0] == ' ' then [] else [s[0]] + Word(s[1..])
  }

  /** The maximal runs of characters other than the blank, in order. */
  function Words(s: string): (ws: seq<string>)
    decreases |s|
  {
    if s == [] then []
    else if s[0] == ' ' then Words(s[1..])
    else [Word(s)] + Words(s[|Word(s)|..])
  }

  /** `w` stands in `s` at `i`, with blanks or the ends of `s` on both sides. */
  ghost predicate StandsAt(s: string, w: string, i: nat) {
    && w != [] && i + |w| <= |s|
    && s[i..i + |w|] == w
    && (forall k :: 0 <= k < |w| ==> w[k] != ' ')
    && (i == 0 || s[i - 1] == ' ')
    && (i + |w| == |s| || s[i + |w|] == ' ')
  }

  ghost predicate Stands(s: string, w: string) {
    exists i: nat :: StandsAt(s, w, i)
  }

  lemma StandsBehindBlank(s: string, w: string)
    requires s != [] && s[0] == ' '
    ensures Stands(s, w) <==> Stands(s[1..], w)
  {
    var t := s[1..];
    if Stands(s, w) {
      var i: nat :| StandsAt(s, w, i);
      assert s[i..i + |w|][0] == w[0];
      assert i > 0;
      assert t[i - 1..i - 1 + |w|] == s[i..i + |w|];
      assert StandsAt(t, w, i - 1);
    }
    if Stands(t, w) {
      var i: nat :| StandsAt(t, w, i);
      assert s[i + 1..i + 1 + |w|] == t[i..i + |w|];
      assert StandsAt(s, w, i + 1);
    }
  }

  /** A word that stands at the front is the first one. */
  lemma StandsInFront(s: string, w: string)
    requires s != [] && s[0] != ' '
    ensures StandsAt(s, w, 0) <==> w == Word(s)
  {
    var first := Word(s);
    assert first == [s[0]] + Word(s[1..]);
    assert s[0..|first|] == first;
    assert forall k :: 0 <= k < |first| ==> s[k] == first[k];
    if StandsAt(s, w, 0) {
      assert forall k :: 0 <= k < |w| ==> s[k] == s[0..|w|][k];
      assert |w| == |first|;
    }
  }

  /** Any other word stands behind it. */
  lemma StandsLater(s: string, w: string, i: nat)
    requires s != [] && s[0] != ' ' && i > 0 && StandsAt(s, w, i)
    ensures i > |Word(s)| && StandsAt(s[|Word(s)|..], w, i - |Word(s)|)
  {
    var n := |Word(s)|;
    assert forall k :: 0 <= k < n ==> s[k] == Word(s)[k];
    assert s[i - 1] == ' ';
    assert s[i..i + |w|][0] == w[0];
    var t := s[n..];
    assert t[i - n..i - n + |w|] == s[i..i + |w|];
  }

  /** What stands in a tail that begins with a blank, or is empty, stands in the whole. */
  lemma StandsEarlier(s: string, t: string, w: string, n: nat, i: nat)
    requires n <= |s| && t == s[n..] && (t == [] || t[0] == ' ') && StandsAt(t, w, i)
    ensures StandsAt(s, w, i + n)
  {
    assert t[i..i + |w|][0] == w[0];
    assert i > 0;
    assert s[i + n - 1] == t[i - 1];
    assert s[i + n..i + n + |w|] == t[i..i + |w|];
    assert i + |w| < |t| ==> s[i + n + |w|] == t[i + |w|];
  }

  /** A string is one of the words if and only if it stands in the tag string
      between blanks or ends. */
  lemma {:induction false} WordsAreDelimited(s: string, w: string)
    ensures w in Words(s) <==> Stands(s, w)
    decreases |s|
  {
    if s == [] {
    } else if s[0] == ' ' {
      WordsAreDelimited(s[1..], w);
      StandsBehindBlank(s, w);
    } else {
      var rest := s[|Word(s)|..];
      StandsInFront(s, w);
      assert Word(s) == [s[0]] + Word(s[1..]);
      WordsAreDelimited(rest, w);
      if Stands(s, w) {
        var i: nat :| StandsAt(s, w, i);
        if i > 0 {
          StandsLater(s, w, i);
        }
      }
      if Stands(rest, w) {
        var i: nat :| StandsAt(rest, w, i);
        StandsEarlier(s, rest, w, |Word(s)|, i);
      }
    }
  }

  // ---------- the loops ----------

  /** tag_string_to_list; a NULL string gives the empty list. */
  method TagStringToList(tags: Option<string>) returns (list: List<string>)
    ensures fresh(list) && fresh(list.data) && list.Valid()
    ensures list.elems == if tags.Some? then Words(tags.value) else []
  {
    list := new List<string>();
    if tags.None? {
      return;
    }
    var left := tags.value;
    while left != []
      invariant fresh(list) && fresh(list.data) && list.Valid()
      invariant list.elems + Words(left) == Words(tags.value)
      decreases |left|
    {
      if left[0] == ' ' {
        left := left[1..];
      } else {
        var tag := Word(left);
        assert tag == [left[0]] + Word(left[1..]);
        list.AddEnd(tag);
        left := left[|tag|..];
      }
    }
  }

  /** tcase_matching_tag: walks the cursors of both lists, and stops where it found a match. */
  method MatchingTag(tags: List<string>, checkFor: List<string>) returns (found: bool)
    requires tags.Valid() && checkFor.Valid() && tags != checkFor
    modifies tags`current, checkFor`current
    ensures tags.Valid() && checkFor.Valid()
    ensures found <==> exists i :: 0 <= i < |tags.elems| && tags.elems[i] in checkFor.elems
  {
    checkFor.Front();
    while !checkFor.AtEnd()
      invariant tags.Valid() && checkFor.Valid()
      invariant checkFor.elems != [] ==> forall i :: 0 <= i < |tags.elems| ==>
                  tags.elems[i] !in checkFor.elems[..checkFor.current]
      decreases |checkFor.elems| - checkFor.current
    {
      var want := checkFor.Val();
      found := tags.Contains(want.value);
      if found {
        return;
      }
      checkFor.Advance();
    }
    found := false;
  }
}
