/** Suites and cases as the objects of src/check.c, and the loops of
    src/check_run.c that walk their cursor lists. */
module SuiteRunner {
  import opened Base
  import opened CheckList
  import opened Tags
  import opened Results
  import opened TestRun
  import opened Expectations
  import opened Fixtures
  import opened Runner
  import Spec = SuiteRun

  // ---------- building ----------

  class TCase {
    const name: string
    var tests: seq<TestFun>
    var unchSetups: seq<Fixture>
    var unchTeardowns: seq<Fixture>
    var chSetups: seq<Fixture>
    var chTeardowns: seq<Fixture>
    var tags: List<string>

    function TheCase(): Case
      reads this
    {
      Case(name, tests, unchSetups, unchTeardowns, chSetups, chTeardowns)
    }

    ghost function View(): Spec.TaggedCase
      reads this, tags`elems
    {
      Spec.TaggedCase(TheCase(), tags.elems)
    }

    constructor (name: Option<string>)
      ensures fresh(tags) && tags.Valid()
      ensures View() == Spec.TaggedCase(Case(if name.Some? then name.value else "", [], [], [], [], []), [])
    {
      this.name := if name.Some? then name.value else "";
      tests, unchSetups, unchTeardowns, chSetups, chTeardowns := [], [], [], [], [];
      tags := new List<string>();
    }

    method AddTest(tf: TestFun)
      modifies this
      ensures TheCase() == old(TheCase()).(tests := old(tests) + [tf]) && tags == old(tags)
    {
      tests := tests + [tf];
    }

    /** tcase_add_checked_fixture and tcase_add_unchecked_fixture. */
    method Add(r: Registration)
      modifies this
      ensures TheCase() == AddFixture(old(TheCase()), r) && tags == old(tags)
    {
      if r.setup.Some? {
        if r.checked {
          chSetups := chSetups + [r.setup.value];
        } else {
          unchSetups := unchSetups + [r.setup.value];
        }
      }
      if r.teardown.Some? {
        if r.checked {
          chTeardowns := [r.teardown.value] + chTeardowns;
        } else {
          unchTeardowns := [r.teardown.value] + unchTeardowns;
        }
      }
    }

    /** tcase_set_tags replaces the list. */
    method SetTags(tagString: Option<string>)
      modifies this
      ensures fresh(tags) && tags.Valid()
      ensures View() == old(View()).(tags := if tagString.Some? then Words(tagString.value) else [])
    {
      tags := TagStringToList(tagString);
    }
  }

  predicate Distinct<T(==)>(s: seq<T>) {
    forall i, j :: 0 <= i < j < |s| ==> s[i] != s[j]
  }

  class Suite {
    const name: string
    const tclst: List<TCase>

    constructor (name: Option<string>)
      ensures fresh(tclst) && fresh(tclst.data) && tclst.Valid() && tclst.elems == []
      ensures this.name == if name.Some? then name.value else ""
    {
      this.name := if name.Some? then name.value else "";
      tclst := new List<TCase>();
    }

    /** suite_add_tcase: a case that is already there is not added again. */
    method AddTCase(tc: TCase)
      requires tclst.Valid() && Distinct(tclst.elems)
      modifies tclst, tclst.data
      ensures tclst.Valid() && Distinct(tclst.elems)
      ensures tclst.elems == if tc in old(tclst.elems) then old(tclst.elems) else old(tclst.elems) + [tc]
    {
      var there := tclst.Contains(tc);
      if there {
        return;
      }
      tclst.AddEnd(tc);
    }

    /** suite_tcase: leaves the cursor where it found the case. */
    method HasCase(tcname: string) returns (found: bool)
      requires tclst.Valid()
      modifies tclst`current
      ensures tclst.Valid()
      ensures found <==> exists i :: 0 <= i < |tclst.elems| && tclst.elems[i].name == tcname
    {
      tclst.Front();
      while !tclst.AtEnd()
        invariant tclst.Valid()
        invariant tclst.elems != [] ==>
                    forall i :: 0 <= i < tclst.current ==> tclst.elems[i].name != tcname
        decreases |tclst.elems| - tclst.current
      {
        var tc := tclst.Val();
        if tc.value.name == tcname {
          return true;
        }
        tclst.Advance();
      }
      found := false;
    }
  }

  // ---------- selecting and running ----------

  /** These objects are these cases, and their tag lists are among `tagLists`. */
  ghost predicate Depicts(tcs: seq<TCase>, cases: seq<Spec.TaggedCase>, tagLists: set<List<string>>)
    reads tcs, tagLists`elems
  {
    && |tcs| == |cases|
    && forall i :: 0 <= i < |tcs| ==> tcs[i].tags in tagLists && tcs[i].View() == cases[i]
  }

  ghost predicate AllSound(lists: set<List<string>>)
    reads lists, set l | l in lists :: l.data
  {
    forall l :: l in lists ==> l.Valid()
  }

  /** The three tests at the head of the inner loop. */
  method Wanted(tc: TCase, f: Spec.Filter, inc: List<string>, exc: List<string>) returns (wanted: bool)
    requires tc.tags.Valid() && inc.Valid() && exc.Valid()
    requires tc.tags != inc && tc.tags != exc && inc != exc
    requires f.includeTags.Some? ==> inc.elems == Words(f.includeTags.value)
    requires f.excludeTags.Some? ==> exc.elems == Words(f.excludeTags.value)
    modifies tc.tags`current, inc`current, exc`current
    ensures tc.tags.Valid() && inc.Valid() && exc.Valid()
    ensures wanted <==> Spec.CaseWanted(tc.View(), f)
  {
    if f.tcname.Some? && f.tcname.value != tc.name {
      return false;
    }
    if f.includeTags.Some? {
      var hit := MatchingTag(tc.tags, inc);
      if !hit {
        return false;
      }
    }
    if f.excludeTags.Some? {
      var hit := MatchingTag(tc.tags, exc);
      if hit {
        return false;
      }
    }
    wanted := true;
  }

  /** One pass of the inner loop of srunner_iterate_suites. */
  method Consider(sr: SRunner, tc: TCase, f: Spec.Filter, inc: List<string>, exc: List<string>,
                  ghost tagLists: set<List<string>>) returns (r: Go<bool>)
    requires sr.Valid() && tc.tags in tagLists && AllSound(tagLists) && inc.Valid() && exc.Valid()
    requires inc !in tagLists && exc !in tagLists && inc != exc
    requires f.includeTags.Some? ==> inc.elems == Words(f.includeTags.value)
    requires f.excludeTags.Some? ==> exc.elems == Words(f.excludeTags.value)
    modifies sr, sr.pipes, tagLists`current, inc`current, exc`current
    ensures sr.Valid() && AllSound(tagLists) && inc.Valid() && exc.Valid() && sr.below == old(sr.below)
    ensures Follows(r, sr.TheWorld(),
                    if Spec.CaseWanted(tc.View(), f) then RunCase(old(sr.TheWorld()), sr.TheEnv(), tc.TheCase())
                    else Live(old(sr.TheWorld()), true))
  {
    var wanted := Wanted(tc, f, inc, exc);
    if !wanted {
      return Going(true);
    }
    r := sr.RunTcase(tc.TheCase());
  }

  /** The cases still to come, or the end already met, will make it `goal`. */
  ghost predicate AwaitsCases(w: World, env: Env, left: seq<Spec.TaggedCase>, f: Spec.Filter, r: Go<bool>, goal: Flow<bool>) {
    if r.Gone? then Follows(r, w, goal) else r.value && Spec.RunCases(w, env, left, f) == goal
  }

  lemma AwaitsStep(w: World, env: Env, left: seq<Spec.TaggedCase>, f: Spec.Filter, goal: Flow<bool>,
                   r: Go<bool>, w': World, one: Flow<bool>)
    requires left != [] && AwaitsCases(w, env, left, f, Going(true), goal)
    requires one == if Spec.CaseWanted(left[0], f) then RunCase(w, env, left[0].tc) else Live(w, true)
    requires Follows(r, w', one) && (one.Live? ==> one.value)
    ensures AwaitsCases(w', env, left[1..], f, r, goal)
  {
    if Spec.CaseWanted(left[0], f) {
      assert goal == Spec.RunCasesFrom(w, env, left, f);
    }
  }

  lemma RunCaseSaysTrue(w: World, env: Env, tc: Case)
    ensures RunCase(w, env, tc).Live? ==> RunCase(w, env, tc).value
  {
    var s := UncheckedSetups(w, env, tc);
    if s.Live? && s.value {
      var t := Tests(s.w, env, tc, tc.tests);
      if t.Live? {
        TeardownsSayTrue(t.w, env, tc.unchTeardowns, UncheckedTeardown, env.fork);
      }
    }
  }

  lemma {:induction false} TeardownsSayTrue(w: World, env: Env, fs: seq<Fixture>, role: Role, forked: bool)
    ensures Teardowns(w, env, fs, role, forked).Live? ==> Teardowns(w, env, fs, role, forked).value
    decreases |fs|
  {
    if fs != [] {
      var one := OneTeardown(w, env, Call(role, fs[0]), forked);
      if one.Live? && one.value {
        TeardownsSayTrue(one.w, env, fs[1..], role, forked);
      }
    }
  }

  /** One pass of the loop, seen from the cases still to come. */
  method ConsiderNext(sr: SRunner, tc: TCase, f: Spec.Filter, inc: List<string>, exc: List<string>,
                      ghost tagLists: set<List<string>>, ghost left: seq<Spec.TaggedCase>, ghost goal: Flow<bool>)
    returns (r: Go<bool>)
    requires sr.Valid() && tc.tags in tagLists && AllSound(tagLists) && inc.Valid() && exc.Valid()
    requires inc !in tagLists && exc !in tagLists && inc != exc
    requires f.includeTags.Some? ==> inc.elems == Words(f.includeTags.value)
    requires f.excludeTags.Some? ==> exc.elems == Words(f.excludeTags.value)
    requires left != [] && left[0] == tc.View()
    requires AwaitsCases(sr.TheWorld(), sr.TheEnv(), left, f, Going(true), goal)
    modifies sr, sr.pipes, tagLists`current, inc`current, exc`current
    ensures sr.Valid() && AllSound(tagLists) && inc.Valid() && exc.Valid() && sr.below == old(sr.below)
    ensures AwaitsCases(sr.TheWorld(), sr.TheEnv(), left[1..], f, r, goal)
  {
    ghost var w, env := sr.TheWorld(), sr.TheEnv();
    ghost var one := if Spec.CaseWanted(left[0], f) then RunCase(w, env, left[0].tc) else Live(w, true);
    RunCaseSaysTrue(w, env, left[0].tc);
    r := Consider(sr, tc, f, inc, exc, tagLists);
    AwaitsStep(w, env, left, f, goal, r, sr.TheWorld(), one);
  }

  /** The case under the cursor. */
  method VisitCase(sr: SRunner, tcl: List<TCase>, f: Spec.Filter, inc: List<string>, exc: List<string>,
                   ghost cases: seq<Spec.TaggedCase>, ghost tagLists: set<List<string>>,
                   ghost left: seq<Spec.TaggedCase>, ghost goal: Flow<bool>)
    returns (r: Go<bool>)
    requires sr.Valid() && tcl.Valid() && Depicts(tcl.elems, cases, tagLists)
    requires AllSound(tagLists) && inc.Valid() && exc.Valid()
    requires inc !in tagLists && exc !in tagLists && inc != exc
    requires f.includeTags.Some? ==> inc.elems == Words(f.includeTags.value)
    requires f.excludeTags.Some? ==> exc.elems == Words(f.excludeTags.value)
    requires !tcl.AtEnd() && left == cases[tcl.current..]
    requires AwaitsCases(sr.TheWorld(), sr.TheEnv(), left, f, Going(true), goal)
    modifies sr, sr.pipes, tagLists`current, inc`current, exc`current
    ensures sr.Valid() && AllSound(tagLists) && inc.Valid() && exc.Valid() && sr.below == old(sr.below)
    ensures AwaitsCases(sr.TheWorld(), sr.TheEnv(), left[1..], f, r, goal)
  {
    var v := tcl.Val();
    r := ConsiderNext(sr, v.value, f, inc, exc, tagLists, left, goal);
  }

  /** The case under the cursor, and the cursor moved on. */
  method Visit(sr: SRunner, tcl: List<TCase>, f: Spec.Filter, inc: List<string>, exc: List<string>,
               ghost cases: seq<Spec.TaggedCase>, ghost tagLists: set<List<string>>, ghost goal: Flow<bool>)
    returns (r: Go<bool>)
    requires sr.Valid() && tcl.Valid() && Depicts(tcl.elems, cases, tagLists)
    requires AllSound(tagLists) && inc.Valid() && exc.Valid()
    requires inc !in tagLists && exc !in tagLists && inc != exc
    requires f.includeTags.Some? ==> inc.elems == Words(f.includeTags.value)
    requires f.excludeTags.Some? ==> exc.elems == Words(f.excludeTags.value)
    requires !tcl.AtEnd()
    requires AwaitsCases(sr.TheWorld(), sr.TheEnv(), cases[tcl.current..], f, Going(true), goal)
    modifies sr, sr.pipes, tcl`current, tagLists`current, inc`current, exc`current
    ensures sr.Valid() && tcl.Valid() && AllSound(tagLists) && inc.Valid() && exc.Valid()
    ensures sr.below == old(sr.below)
    ensures tcl.current == old(tcl.current) + 1
    ensures AwaitsCases(sr.TheWorld(), sr.TheEnv(), cases[tcl.current..], f, r, goal)
  {
    ghost var left := cases[tcl.current..];
    assert left[1..] == cases[tcl.current + 1..];
    r := VisitCase(sr, tcl, f, inc, exc, cases, tagLists, left, goal);
    MoveOnCases(sr, tcl, inc, exc, tagLists);
  }

  /** Moving on in the list of cases changes nothing else. */
  method MoveOnCases(sr: SRunner, tcl: List<TCase>, inc: List<string>, exc: List<string>,
                     ghost tagLists: set<List<string>>)
    requires sr.Valid() && tcl.Valid() && !tcl.AtEnd() && AllSound(tagLists) && inc.Valid() && exc.Valid()
    modifies tcl`current
    ensures sr.Valid() && tcl.Valid() && tcl.current == old(tcl.current) + 1
    ensures AllSound(tagLists) && inc.Valid() && exc.Valid() && sr.TheWorld() == old(sr.TheWorld())
  {
    tcl.Advance();
  }

  /** The same; moving cursors changes no picture. */
  method VisitNext(sr: SRunner, tcl: List<TCase>, f: Spec.Filter, inc: List<string>, exc: List<string>,
                   ghost cases: seq<Spec.TaggedCase>, ghost tagLists: set<List<string>>, ghost goal: Flow<bool>)
    returns (r: Go<bool>)
    requires sr.Valid() && tcl.Valid() && Depicts(tcl.elems, cases, tagLists)
    requires AllSound(tagLists) && inc.Valid() && exc.Valid()
    requires inc !in tagLists && exc !in tagLists && inc != exc
    requires f.includeTags.Some? ==> inc.elems == Words(f.includeTags.value)
    requires f.excludeTags.Some? ==> exc.elems == Words(f.excludeTags.value)
    requires !tcl.AtEnd()
    requires AwaitsCases(sr.TheWorld(), sr.TheEnv(), cases[tcl.current..], f, Going(true), goal)
    modifies sr, sr.pipes, tcl`current, tagLists`current, inc`current, exc`current
    ensures sr.Valid() && tcl.Valid() && AllSound(tagLists) && inc.Valid() && exc.Valid()
    ensures Depicts(tcl.elems, cases, tagLists) && sr.below == old(sr.below)
    ensures tcl.current == old(tcl.current) + 1
    ensures AwaitsCases(sr.TheWorld(), sr.TheEnv(), cases[tcl.current..], f, r, goal)
  {
    r := Visit(sr, tcl, f, inc, exc, cases, tagLists, goal);
  }

  /** The inner loop of srunner_iterate_suites: every case of the list once, in
      order, although the tests below move other cursors. */
  method RunCasesOf(sr: SRunner, tcl: List<TCase>, f: Spec.Filter, inc: List<string>, exc: List<string>,
                    ghost cases: seq<Spec.TaggedCase>, ghost tagLists: set<List<string>>, ghost goal: Flow<bool>)
    returns (r: Go<bool>)
    requires sr.Valid() && tcl.Valid() && Depicts(tcl.elems, cases, tagLists)
    requires AllSound(tagLists) && inc.Valid() && exc.Valid()
    requires inc !in tagLists && exc !in tagLists && inc != exc
    requires f.includeTags.Some? ==> inc.elems == Words(f.includeTags.value)
    requires f.excludeTags.Some? ==> exc.elems == Words(f.excludeTags.value)
    requires AwaitsCases(sr.TheWorld(), sr.TheEnv(), cases, f, Going(true), goal)
    modifies sr, sr.pipes, tcl`current, tagLists`current, inc`current, exc`current
    ensures sr.Valid() && tcl.Valid() && AllSound(tagLists) && inc.Valid() && exc.Valid()
    ensures Depicts(tcl.elems, cases, tagLists)
    ensures sr.below == old(sr.below) && Follows(r, sr.TheWorld(), goal)
  {
    RewindCases(sr, tcl, inc, exc, cases, tagLists);
    r := RunCasesFrom(sr, tcl, f, inc, exc, cases, tagLists, goal);
  }

  /** Rewinding the list of cases changes nothing else. */
  method RewindCases(sr: SRunner, tcl: List<TCase>, inc: List<string>, exc: List<string>,
                     ghost cases: seq<Spec.TaggedCase>, ghost tagLists: set<List<string>>)
    requires sr.Valid() && tcl.Valid() && Depicts(tcl.elems, cases, tagLists)
    requires AllSound(tagLists) && inc.Valid() && exc.Valid()
    modifies tcl`current
    ensures sr.Valid() && tcl.Valid() && Depicts(tcl.elems, cases, tagLists)
    ensures AllSound(tagLists) && inc.Valid() && exc.Valid()
    ensures sr.TheWorld() == old(sr.TheWorld())
    ensures cases == if cases == [] then [] else cases[tcl.current..]
  {
    tcl.Front();
    assert cases != [] ==> cases[0..] == cases;
  }

  /** The cases from the cursor on. */
  method RunCasesFrom(sr: SRunner, tcl: List<TCase>, f: Spec.Filter, inc: List<string>, exc: List<string>,
                      ghost cases: seq<Spec.TaggedCase>, ghost tagLists: set<List<string>>, ghost goal: Flow<bool>)
    returns (r: Go<bool>)
    requires sr.Valid() && tcl.Valid() && Depicts(tcl.elems, cases, tagLists)
    requires AllSound(tagLists) && inc.Valid() && exc.Valid()
    requires inc !in tagLists && exc !in tagLists && inc != exc
    requires f.includeTags.Some? ==> inc.elems == Words(f.includeTags.value)
    requires f.excludeTags.Some? ==> exc.elems == Words(f.excludeTags.value)
    requires AwaitsCases(sr.TheWorld(), sr.TheEnv(), if cases == [] then [] else cases[tcl.current..], f, Going(true), goal)
    modifies sr, sr.pipes, tcl`current, tagLists`current, inc`current, exc`current
    ensures sr.Valid() && tcl.Valid() && AllSound(tagLists) && inc.Valid() && exc.Valid()
    ensures Depicts(tcl.elems, cases, tagLists)
    ensures sr.below == old(sr.below) && Follows(r, sr.TheWorld(), goal)
  {
    r := Going(true);
    while !tcl.AtEnd() && r.Going?
      invariant sr.Valid() && tcl.Valid() && AllSound(tagLists) && inc.Valid() && exc.Valid()
      invariant Depicts(tcl.elems, cases, tagLists) && sr.below == old(sr.below)
      invariant AwaitsCases(sr.TheWorld(), sr.TheEnv(), if cases == [] then [] else cases[tcl.current..], f, r, goal)
      decreases |tcl.elems| - tcl.current
    {
      r := VisitNext(sr, tcl, f, inc, exc, cases, tagLists, goal);
    }
  }

  // ---------- suites ----------

  /** The first event of a suite, and its cases. */
  method OpenSuite(sr: SRunner, s: Suite, f: Spec.Filter, inc: List<string>, exc: List<string>,
                   ghost v: Spec.Suite, ghost tagLists: set<List<string>>) returns (r: Go<bool>)
    requires sr.Valid() && s.tclst.Valid() && s.name == v.name && Depicts(s.tclst.elems, v.cases, tagLists)
    requires AllSound(tagLists) && inc.Valid() && exc.Valid()
    requires inc !in tagLists && exc !in tagLists && inc != exc
    requires f.includeTags.Some? ==> inc.elems == Words(f.includeTags.value)
    requires f.excludeTags.Some? ==> exc.elems == Words(f.excludeTags.value)
    modifies sr, sr.pipes, s.tclst`current, tagLists`current, inc`current, exc`current
    ensures sr.Valid() && s.tclst.Valid() && AllSound(tagLists) && inc.Valid() && exc.Valid()
    ensures sr.below == old(sr.below)
    ensures Follows(r, sr.TheWorld(),
                    Spec.RunCases(Log(old(sr.TheWorld()), StartSuite(v.name)), sr.TheEnv(), v.cases, f))
  {
    sr.SendEvent(StartSuite(s.name));
    r := RunCasesOf(sr, s.tclst, f, inc, exc, v.cases, tagLists,
                    Spec.RunCases(sr.TheWorld(), sr.TheEnv(), v.cases, f));
  }

  /** One suite that is wanted: its events around its cases. */
  method RunSuiteOf(sr: SRunner, s: Suite, f: Spec.Filter, inc: List<string>, exc: List<string>,
                    ghost v: Spec.Suite, ghost tagLists: set<List<string>>) returns (r: Go<bool>)
    requires sr.Valid() && s.tclst.Valid() && s.name == v.name && Depicts(s.tclst.elems, v.cases, tagLists)
    requires AllSound(tagLists) && inc.Valid() && exc.Valid()
    requires inc !in tagLists && exc !in tagLists && inc != exc
    requires f.includeTags.Some? ==> inc.elems == Words(f.includeTags.value)
    requires f.excludeTags.Some? ==> exc.elems == Words(f.excludeTags.value)
    modifies sr, sr.pipes, s.tclst`current, tagLists`current, inc`current, exc`current
    ensures sr.Valid() && s.tclst.Valid() && AllSound(tagLists) && inc.Valid() && exc.Valid()
    ensures sr.below == old(sr.below)
    ensures Follows(r, sr.TheWorld(), Spec.RunSuite(old(sr.TheWorld()), sr.TheEnv(), v, f))
  {
    r := OpenSuite(sr, s, f, inc, exc, v, tagLists);
    if r.Going? {
      CloseSuite(sr, s, inc, exc, tagLists);
      r := Going(true);
    }
  }

  /** Sending the last event of a suite changes nothing else. */
  method CloseSuite(sr: SRunner, s: Suite, inc: List<string>, exc: List<string>, ghost tagLists: set<List<string>>)
    requires sr.Valid() && s.tclst.Valid() && AllSound(tagLists) && inc.Valid() && exc.Valid()
    modifies sr, sr.pipes
    ensures sr.Valid() && s.tclst.Valid() && AllSound(tagLists) && inc.Valid() && exc.Valid()
    ensures sr.below == old(sr.below) && sr.TheWorld() == Log(old(sr.TheWorld()), EndSuite(s.name))
  {
    sr.SendEvent(EndSuite(s.name));
  }

  /** The tests at the head of the outer loop; looking for the case moves the
      suite's own cursor, which the inner loop starts over. */
  method SuiteIsWanted(s: Suite, f: Spec.Filter, ghost v: Spec.Suite, ghost tagLists: set<List<string>>)
    returns (wanted: bool)
    requires s.tclst.Valid() && s.name == v.name && Depicts(s.tclst.elems, v.cases, tagLists)
    modifies s.tclst`current
    ensures s.tclst.Valid()
    ensures wanted <==> Spec.SuiteWanted(v, f)
  {
    if f.sname.Some? && f.sname.value != s.name {
      return false;
    }
    wanted := true;
    if f.tcname.Some? {
      wanted := s.HasCase(f.tcname.value);
      assert forall i :: 0 <= i < |v.cases| ==> s.tclst.elems[i].View() == v.cases[i];
      assert forall i :: 0 <= i < |v.cases| ==> v.cases[i].tc.name == s.tclst.elems[i].name;
    }
  }

  method ConsiderSuite(sr: SRunner, s: Suite, f: Spec.Filter, inc: List<string>, exc: List<string>,
                       ghost v: Spec.Suite, ghost tagLists: set<List<string>>) returns (r: Go<bool>)
    requires sr.Valid() && s.tclst.Valid() && s.name == v.name && Depicts(s.tclst.elems, v.cases, tagLists)
    requires AllSound(tagLists) && inc.Valid() && exc.Valid()
    requires inc !in tagLists && exc !in tagLists && inc != exc
    requires f.includeTags.Some? ==> inc.elems == Words(f.includeTags.value)
    requires f.excludeTags.Some? ==> exc.elems == Words(f.excludeTags.value)
    modifies sr, sr.pipes, s.tclst`current, tagLists`current, inc`current, exc`current
    ensures sr.Valid() && s.tclst.Valid() && AllSound(tagLists) && inc.Valid() && exc.Valid()
    ensures sr.below == old(sr.below)
    ensures Follows(r, sr.TheWorld(),
                    if Spec.SuiteWanted(v, f) then Spec.RunSuite(old(sr.TheWorld()), sr.TheEnv(), v, f)
                    else Live(old(sr.TheWorld()), true))
  {
    var wanted := SuiteIsWanted(s, f, v, tagLists);
    if !wanted {
      return Going(true);
    }
    r := RunSuiteOf(sr, s, f, inc, exc, v, tagLists);
  }

  /** These objects are the suites of the plan, built from these lists. */
  ghost predicate DepictsAll(ss: seq<Suite>, plan: seq<Spec.Suite>, caseLists: set<List<TCase>>, tcs: set<TCase>,
                             tagLists: set<List<string>>)
    reads caseLists`elems, tcs, tagLists`elems
  {
    |ss| == |plan| && forall i :: 0 <= i < |ss| ==> DepictsOne(ss[i], plan[i], caseLists, tcs, tagLists)
  }

  ghost predicate DepictsOne(s: Suite, v: Spec.Suite, caseLists: set<List<TCase>>, tcs: set<TCase>,
                             tagLists: set<List<string>>)
    reads caseLists`elems, tcs, tagLists`elems
  {
    && s.name == v.name && s.tclst in caseLists
    && (forall k :: 0 <= k < |s.tclst.elems| ==> s.tclst.elems[k] in tcs)
    && Depicts(s.tclst.elems, v.cases, tagLists)
  }

  ghost predicate AllCaseListsSound(lists: set<List<TCase>>)
    reads lists, set l | l in lists :: l.data
  {
    forall l :: l in lists ==> l.Valid()
  }

  ghost predicate AwaitsSuites(w: World, env: Env, left: seq<Spec.Suite>, f: Spec.Filter, r: Go<bool>, goal: Flow<bool>) {
    if r.Gone? then Follows(r, w, goal) else r.value && Spec.RunSuites(w, env, left, f) == goal
  }

  lemma AwaitsSuitesStep(w: World, env: Env, left: seq<Spec.Suite>, f: Spec.Filter, goal: Flow<bool>,
                         r: Go<bool>, w': World, one: Flow<bool>)
    requires left != [] && AwaitsSuites(w, env, left, f, Going(true), goal)
    requires one == if Spec.SuiteWanted(left[0], f) then Spec.RunSuite(w, env, left[0], f) else Live(w, true)
    requires Follows(r, w', one)
    ensures AwaitsSuites(w', env, left[1..], f, r, goal)
  {
  }

  /** One pass of the outer loop, seen from the suites still to come. */
  method ConsiderNextSuite(sr: SRunner, s: Suite, f: Spec.Filter, inc: List<string>, exc: List<string>,
                           ghost left: seq<Spec.Suite>, ghost caseLists: set<List<TCase>>, ghost tagLists: set<List<string>>,
                           ghost goal: Flow<bool>) returns (r: Go<bool>)
    requires sr.Valid() && s.tclst in caseLists && AllCaseListsSound(caseLists) && AllSound(tagLists)
    requires left != [] && s.name == left[0].name && Depicts(s.tclst.elems, left[0].cases, tagLists)
    requires inc.Valid() && exc.Valid() && inc !in tagLists && exc !in tagLists && inc != exc
    requires f.includeTags.Some? ==> inc.elems == Words(f.includeTags.value)
    requires f.excludeTags.Some? ==> exc.elems == Words(f.excludeTags.value)
    requires AwaitsSuites(sr.TheWorld(), sr.TheEnv(), left, f, Going(true), goal)
    modifies sr, sr.pipes, caseLists`current, tagLists`current, inc`current, exc`current
    ensures sr.Valid() && AllCaseListsSound(caseLists) && AllSound(tagLists) && inc.Valid() && exc.Valid()
    ensures sr.below == old(sr.below)
    ensures AwaitsSuites(sr.TheWorld(), sr.TheEnv(), left[1..], f, r, goal)
  {
    ghost var w, env := sr.TheWorld(), sr.TheEnv();
    ghost var one := if Spec.SuiteWanted(left[0], f) then Spec.RunSuite(w, env, left[0], f) else Live(w, true);
    r := ConsiderSuite(sr, s, f, inc, exc, left[0], tagLists);
    AwaitsSuitesStep(w, env, left, f, goal, r, sr.TheWorld(), one);
  }

  /** The suite under the cursor. */
  method VisitHere(sr: SRunner, slst: List<Suite>, f: Spec.Filter, inc: List<string>, exc: List<string>,
                   ghost plan: seq<Spec.Suite>, ghost caseLists: set<List<TCase>>, ghost tcs: set<TCase>,
                   ghost tagLists: set<List<string>>, ghost left: seq<Spec.Suite>, ghost goal: Flow<bool>)
    returns (r: Go<bool>)
    requires sr.Valid() && slst.Valid() && DepictsAll(slst.elems, plan, caseLists, tcs, tagLists)
    requires AllCaseListsSound(caseLists) && AllSound(tagLists) && inc.Valid() && exc.Valid()
    requires inc !in tagLists && exc !in tagLists && inc != exc
    requires f.includeTags.Some? ==> inc.elems == Words(f.includeTags.value)
    requires f.excludeTags.Some? ==> exc.elems == Words(f.excludeTags.value)
    requires !slst.AtEnd()
    requires left == plan[slst.current..] && AwaitsSuites(sr.TheWorld(), sr.TheEnv(), left, f, Going(true), goal)
    modifies sr, sr.pipes, caseLists`current, tagLists`current, inc`current, exc`current
    ensures sr.Valid() && AllCaseListsSound(caseLists) && AllSound(tagLists) && inc.Valid() && exc.Valid()
    ensures sr.below == old(sr.below)
    ensures AwaitsSuites(sr.TheWorld(), sr.TheEnv(), left[1..], f, r, goal)
  {
    var s := slst.Val();
    r := ConsiderNextSuite(sr, s.value, f, inc, exc, left, caseLists, tagLists, goal);
  }

  /** The same; moving cursors changes no picture. */
  method VisitCurrent(sr: SRunner, slst: List<Suite>, f: Spec.Filter, inc: List<string>, exc: List<string>,
                      ghost plan: seq<Spec.Suite>, ghost caseLists: set<List<TCase>>, ghost tcs: set<TCase>,
                      ghost tagLists: set<List<string>>, ghost left: seq<Spec.Suite>, ghost goal: Flow<bool>)
    returns (r: Go<bool>)
    requires sr.Valid() && slst.Valid() && DepictsAll(slst.elems, plan, caseLists, tcs, tagLists)
    requires AllCaseListsSound(caseLists) && AllSound(tagLists) && inc.Valid() && exc.Valid()
    requires inc !in tagLists && exc !in tagLists && inc != exc
    requires f.includeTags.Some? ==> inc.elems == Words(f.includeTags.value)
    requires f.excludeTags.Some? ==> exc.elems == Words(f.excludeTags.value)
    requires !slst.AtEnd() && left == plan[slst.current..]
    requires AwaitsSuites(sr.TheWorld(), sr.TheEnv(), left, f, Going(true), goal)
    modifies sr, sr.pipes, caseLists`current, tagLists`current, inc`current, exc`current
    ensures sr.Valid() && AllCaseListsSound(caseLists) && AllSound(tagLists) && inc.Valid() && exc.Valid()
    ensures DepictsAll(slst.elems, plan, caseLists, tcs, tagLists) && sr.below == old(sr.below)
    ensures AwaitsSuites(sr.TheWorld(), sr.TheEnv(), left[1..], f, r, goal)
  {
    r := VisitHere(sr, slst, f, inc, exc, plan, caseLists, tcs, tagLists, left, goal);
  }

  /** Moving on in the list of suites changes nothing else. */
  method MoveOn(sr: SRunner, slst: List<Suite>, inc: List<string>, exc: List<string>,
                ghost plan: seq<Spec.Suite>, ghost caseLists: set<List<TCase>>, ghost tcs: set<TCase>,
                ghost tagLists: set<List<string>>)
    requires sr.Valid() && slst.Valid() && !slst.AtEnd() && DepictsAll(slst.elems, plan, caseLists, tcs, tagLists)
    requires AllCaseListsSound(caseLists) && AllSound(tagLists) && inc.Valid() && exc.Valid()
    modifies slst`current
    ensures sr.Valid() && slst.Valid() && slst.current == old(slst.current) + 1
    ensures DepictsAll(slst.elems, plan, caseLists, tcs, tagLists)
    ensures AllCaseListsSound(caseLists) && AllSound(tagLists) && inc.Valid() && exc.Valid()
    ensures sr.TheWorld() == old(sr.TheWorld())
  {
    slst.Advance();
  }

  /** The suite under the cursor, and the cursor moved on. */
  method VisitSuite(sr: SRunner, slst: List<Suite>, f: Spec.Filter, inc: List<string>, exc: List<string>,
                    ghost plan: seq<Spec.Suite>, ghost caseLists: set<List<TCase>>, ghost tcs: set<TCase>,
                    ghost tagLists: set<List<string>>, ghost goal: Flow<bool>) returns (r: Go<bool>)
    requires sr.Valid() && slst.Valid() && DepictsAll(slst.elems, plan, caseLists, tcs, tagLists)
    requires AllCaseListsSound(caseLists) && AllSound(tagLists) && inc.Valid() && exc.Valid()
    requires inc !in tagLists && exc !in tagLists && inc != exc
    requires f.includeTags.Some? ==> inc.elems == Words(f.includeTags.value)
    requires f.excludeTags.Some? ==> exc.elems == Words(f.excludeTags.value)
    requires !slst.AtEnd()
    requires AwaitsSuites(sr.TheWorld(), sr.TheEnv(), plan[slst.current..], f, Going(true), goal)
    modifies sr, sr.pipes, slst`current, caseLists`current, tagLists`current, inc`current, exc`current
    ensures sr.Valid() && slst.Valid() && AllCaseListsSound(caseLists) && AllSound(tagLists) && inc.Valid() && exc.Valid()
    ensures DepictsAll(slst.elems, plan, caseLists, tcs, tagLists) && sr.below == old(sr.below)
    ensures slst.current == old(slst.current) + 1
    ensures AwaitsSuites(sr.TheWorld(), sr.TheEnv(), plan[slst.current..], f, r, goal)
  {
    ghost var left := plan[slst.current..];
    assert left[1..] == plan[slst.current + 1..];
    r := VisitCurrent(sr, slst, f, inc, exc, plan, caseLists, tcs, tagLists, left, goal);
    MoveOn(sr, slst, inc, exc, plan, caseLists, tcs, tagLists);
  }

  lemma AwaitsSuitesEnd(w: World, env: Env, left: seq<Spec.Suite>, f: Spec.Filter, r: Go<bool>, goal: Flow<bool>)
    requires AwaitsSuites(w, env, left, f, r, goal) && (r.Gone? || left == [])
    ensures Follows(r, w, goal)
  {
  }

  /** The suites from the cursor on. */
  method RunSuitesFrom(sr: SRunner, slst: List<Suite>, f: Spec.Filter, inc: List<string>, exc: List<string>,
                       ghost plan: seq<Spec.Suite>, ghost caseLists: set<List<TCase>>, ghost tcs: set<TCase>,
                       ghost tagLists: set<List<string>>, ghost goal: Flow<bool>) returns (r: Go<bool>)
    requires sr.Valid() && slst.Valid() && DepictsAll(slst.elems, plan, caseLists, tcs, tagLists)
    requires AllCaseListsSound(caseLists) && AllSound(tagLists) && inc.Valid() && exc.Valid()
    requires inc !in tagLists && exc !in tagLists && inc != exc
    requires f.includeTags.Some? ==> inc.elems == Words(f.includeTags.value)
    requires f.excludeTags.Some? ==> exc.elems == Words(f.excludeTags.value)
    requires AwaitsSuites(sr.TheWorld(), sr.TheEnv(), if plan == [] then [] else plan[slst.current..], f, Going(true), goal)
    modifies sr, sr.pipes, slst`current, caseLists`current, tagLists`current, inc`current, exc`current
    ensures sr.Valid() && slst.Valid() && AllCaseListsSound(caseLists) && AllSound(tagLists)
    ensures sr.below == old(sr.below) && Follows(r, sr.TheWorld(), goal)
  {
    r := Going(true);
    while !slst.AtEnd() && r.Going?
      invariant sr.Valid() && slst.Valid() && AllCaseListsSound(caseLists) && AllSound(tagLists) && inc.Valid() && exc.Valid()
      invariant DepictsAll(slst.elems, plan, caseLists, tcs, tagLists) && sr.below == old(sr.below)
      invariant AwaitsSuites(sr.TheWorld(), sr.TheEnv(), if plan == [] then [] else plan[slst.current..], f, r, goal)
      decreases |slst.elems| - slst.current
    {
      r := VisitSuite(sr, slst, f, inc, exc, plan, caseLists, tcs, tagLists, goal);
    }
    AwaitsSuitesEnd(sr.TheWorld(), sr.TheEnv(), if plan == [] then [] else plan[slst.current..], f, r, goal);
  }

  /** Rewinding the list of suites changes nothing else. */
  method Rewind(sr: SRunner, slst: List<Suite>, inc: List<string>, exc: List<string>,
                ghost plan: seq<Spec.Suite>, ghost caseLists: set<List<TCase>>, ghost tcs: set<TCase>,
                ghost tagLists: set<List<string>>)
    requires sr.Valid() && slst.Valid() && DepictsAll(slst.elems, plan, caseLists, tcs, tagLists)
    requires AllCaseListsSound(caseLists) && AllSound(tagLists) && inc.Valid() && exc.Valid()
    modifies slst`current
    ensures sr.Valid() && slst.Valid() && DepictsAll(slst.elems, plan, caseLists, tcs, tagLists)
    ensures AllCaseListsSound(caseLists) && AllSound(tagLists) && inc.Valid() && exc.Valid()
    ensures sr.TheWorld() == old(sr.TheWorld())
    ensures plan == if plan == [] then [] else plan[slst.current..]
  {
    slst.Front();
    assert plan != [] ==> plan[0..] == plan;
  }

  /** The outer loop of srunner_iterate_suites. */
  method RunSuitesOf(sr: SRunner, slst: List<Suite>, f: Spec.Filter, inc: List<string>, exc: List<string>,
                     ghost plan: seq<Spec.Suite>, ghost caseLists: set<List<TCase>>, ghost tcs: set<TCase>,
                       ghost tagLists: set<List<string>>,
                     ghost goal: Flow<bool>) returns (r: Go<bool>)
    requires sr.Valid() && slst.Valid() && DepictsAll(slst.elems, plan, caseLists, tcs, tagLists)
    requires AllCaseListsSound(caseLists) && AllSound(tagLists) && inc.Valid() && exc.Valid()
    requires inc !in tagLists && exc !in tagLists && inc != exc
    requires f.includeTags.Some? ==> inc.elems == Words(f.includeTags.value)
    requires f.excludeTags.Some? ==> exc.elems == Words(f.excludeTags.value)
    requires AwaitsSuites(sr.TheWorld(), sr.TheEnv(), plan, f, Going(true), goal)
    modifies sr, sr.pipes, slst`current, caseLists`current, tagLists`current, inc`current, exc`current
    ensures sr.Valid() && slst.Valid() && AllCaseListsSound(caseLists) && AllSound(tagLists)
    ensures sr.below == old(sr.below) && Follows(r, sr.TheWorld(), goal)
  {
    Rewind(sr, slst, inc, exc, plan, caseLists, tcs, tagLists);
    r := RunSuitesFrom(sr, slst, f, inc, exc, plan, caseLists, tcs, tagLists, goal);
  }

  /** srunner_iterate_suites: runs exactly what the plan says, whatever cursors
      selection and tests move on the way. */
  method IterateSuites(sr: SRunner, slst: List<Suite>, f: Spec.Filter,
                       ghost plan: seq<Spec.Suite>, ghost caseLists: set<List<TCase>>, ghost tcs: set<TCase>,
                       ghost tagLists: set<List<string>>)
    returns (r: Go<bool>)
    requires sr.Valid() && slst.Valid() && DepictsAll(slst.elems, plan, caseLists, tcs, tagLists)
    requires AllCaseListsSound(caseLists) && AllSound(tagLists)
    modifies sr, sr.pipes, slst`current, caseLists`current, tagLists`current
    ensures sr.Valid() && slst.Valid() && AllCaseListsSound(caseLists) && AllSound(tagLists)
    ensures sr.below == old(sr.below)
    ensures Follows(r, sr.TheWorld(), Spec.RunSuites(old(sr.TheWorld()), sr.TheEnv(), plan, f))
  {
    var inc := TagStringToList(f.includeTags);
    var exc := TagStringToList(f.excludeTags);
    r := RunSuitesOf(sr, slst, f, inc, exc, plan, caseLists, tcs, tagLists,
                     Spec.RunSuites(sr.TheWorld(), sr.TheEnv(), plan, f));
  }

  /** srunner_run_init, which touches no list. */
  method Begin(sr: SRunner, slst: List<Suite>, ghost plan: seq<Spec.Suite>, ghost caseLists: set<List<TCase>>,
               ghost tcs: set<TCase>, ghost tagLists: set<List<string>>) returns (ok: bool)
    requires sr.Idle() && slst.Valid() && DepictsAll(slst.elems, plan, caseLists, tcs, tagLists)
    requires AllCaseListsSound(caseLists) && AllSound(tagLists)
    modifies sr, sr.pipes
    ensures sr.below == old(sr.below) && (ok <==> |sr.below| < 2)
    ensures !ok ==> sr.TheWorld() == old(sr.TheWorld())
    ensures ok ==> sr.Valid() && sr.TheWorld() == Log(Log(old(sr.TheWorld()).(pipe := []), InitLog), StartRunner)
    ensures slst.Valid() && DepictsAll(slst.elems, plan, caseLists, tcs, tagLists)
    ensures AllCaseListsSound(caseLists) && AllSound(tagLists)
  {
    ok := sr.RunInit();
  }

  /** srunner_run_tagged, for every script: it follows the specified run, and when
      it completes, the pipes are exactly as it found them. */
  method RunTagged(sr: SRunner, slst: List<Suite>, f: Spec.Filter,
                   ghost plan: seq<Spec.Suite>, ghost caseLists: set<List<TCase>>, ghost tcs: set<TCase>,
                       ghost tagLists: set<List<string>>)
    returns (r: Go<bool>)
    requires sr.Idle() && slst.Valid() && DepictsAll(slst.elems, plan, caseLists, tcs, tagLists)
    requires AllCaseListsSound(caseLists) && AllSound(tagLists)
    modifies sr, sr.pipes, slst`current, caseLists`current, tagLists`current
    ensures |old(sr.below)| == 2 ==> r == EPRINTF && sr.TheWorld() == old(sr.TheWorld())
    ensures |old(sr.below)| < 2 && r.Going? ==>
              && sr.Idle() && sr.pipes.Stack() == old(sr.pipes.Stack())
              && Follows(r, sr.TheWorld(), Spec.RunTagged(old(sr.TheWorld()), sr.TheEnv(), plan, f))
    ensures |old(sr.below)| < 2 && r.Gone? ==>
              Follows(r, sr.TheWorld(), Spec.RunTagged(old(sr.TheWorld()), sr.TheEnv(), plan, f))
  {
    var ok := Begin(sr, slst, plan, caseLists, tcs, tagLists);
    if !ok {
      return EPRINTF;
    }
    var _ :- IterateSuites(sr, slst, f, plan, caseLists, tcs, tagLists);
    sr.RunEnd();
    r := Going(true);
  }

  // ---------- asking for results ----------

  /** The counters agree with the results, all of which are decided. */
  predicate Consistent(w: World) {
    && Spec.AllJudged(w.results)
    && w.nChecked == |w.results|
    && w.nFailed == Spec.Tally(w.results, Failure)
    && w.nErrors == Spec.Tally(w.results, Error)
  }

  /** Whatever runs add, the counters stay right. */
  lemma StaysConsistent(w: World, w': World, trs: seq<TestResult>, events: seq<Event>)
    requires Consistent(w) && Spec.Added(w, w', trs, events) && Spec.AllJudged(trs)
    ensures Consistent(w')
  {
    Spec.TallyAppend(w.results, trs, Failure);
    Spec.TallyAppend(w.results, trs, Error);
  }

  function NonPass(trs: seq<TestResult>): seq<TestResult>
    decreases |trs|
  {
    if trs == [] then [] else (if trs[0].rtype != Pass then [trs[0]] else []) + NonPass(trs[1..])
  }

  lemma {:induction false} NonPassCount(trs: seq<TestResult>)
    requires Spec.AllJudged(trs)
    ensures |NonPass(trs)| == Spec.Tally(trs, Failure) + Spec.Tally(trs, Error)
    decreases |trs|
  {
    if trs != [] {
      assert Spec.Judged(trs[0]);
      NonPassCount(trs[1..]);
    }
  }

  lemma {:induction false} NonPassAppend(a: seq<TestResult>, b: seq<TestResult>)
    ensures NonPass(a + b) == NonPass(a) + NonPass(b)
    decreases |a|
  {
    if a == [] {
      assert a + b == b;
    } else {
      assert (a + b)[0] == a[0] && (a + b)[1..] == a[1..] + b;
      NonPassAppend(a[1..], b);
      ConcatAssoc(if a[0].rtype != Pass then [a[0]] else [], NonPass(a[1..]), NonPass(b));
    }
  }

  /** A result is among them if and only if it is not a pass, once, behind those before it and
      before those behind it. */
  lemma NonPassAt(trs: seq<TestResult>, j: nat)
    requires j < |trs|
    ensures NonPass(trs) ==
            NonPass(trs[..j]) + ((if trs[j].rtype != Pass then [trs[j]] else []) + NonPass(trs[j + 1..]))
  {
    var here, rest := trs[j], trs[j..];
    assert trs == trs[..j] + rest && rest[0] == here && rest[1..] == trs[j + 1..];
    NonPassAppend(trs[..j], rest);
  }

  /** The next result goes into the array unless it is a pass. */
  method Collect(trarray: array<TestResult>, i: nat, tr: TestResult, ghost left: seq<TestResult>) returns (next: nat)
    requires left != [] && tr == left[0] && i + |NonPass(left)| == trarray.Length
    modifies trarray
    ensures next <= trarray.Length && next + |NonPass(left[1..])| == trarray.Length
    ensures trarray[..next] + NonPass(left[1..]) == old(trarray[..i]) + NonPass(left)
  {
    next := i;
    ghost var done := trarray[..i];
    ghost var rest := NonPass(left[1..]);
    if tr.rtype != Pass {
      assert NonPass(left) == [tr] + rest;
      trarray[i] := tr;
      next := i + 1;
      assert trarray[..next] == done + [tr];
      ConcatAssoc(done, [tr], rest);
    } else {
      assert NonPass(left) == [] + rest == rest;
    }
  }

  /** srunner_failures: an array sized by the counters, filled exactly, in order, by
      walking the list of results with its cursor. */
  method Failures(resultlst: List<TestResult>, nFailed: int, nErrors: int) returns (trarray: array<TestResult>)
    requires resultlst.Valid() && Spec.AllJudged(resultlst.elems)
    requires nFailed == Spec.Tally(resultlst.elems, Failure) && nErrors == Spec.Tally(resultlst.elems, Error)
    modifies resultlst`current
    ensures resultlst.Valid() && fresh(trarray) && trarray[..] == NonPass(resultlst.elems)
  {
    ghost var all := resultlst.elems;
    NonPassCount(all);
    trarray := new TestResult[nFailed + nErrors](_ => FreshResult);
    var i: nat := 0;
    ghost var left := all;
    assert trarray[..0] == [] && [] + NonPass(all) == NonPass(all);
    resultlst.Front();
    assert all[0..] == all;
    while !resultlst.AtEnd()
      invariant resultlst.Valid() && resultlst.elems == all
      invariant left == if all == [] then [] else all[resultlst.current..]
      invariant i <= trarray.Length && i + |NonPass(left)| == trarray.Length
      invariant trarray[..i] + NonPass(left) == NonPass(all)
      decreases |left|
    {
      var tr := resultlst.Val();
      assert left[0] == tr.value && left[1..] == all[resultlst.current + 1..];
      i := Collect(trarray, i, tr.value, left);
      resultlst.Advance();
      left := left[1..];
    }
    assert left == [];
  }

  /** srunner_results: all of them. */
  method AllResults(resultlst: List<TestResult>, nChecked: int) returns (trarray: array<TestResult>)
    requires resultlst.Valid() && nChecked == |resultlst.elems|
    modifies resultlst`current
    ensures resultlst.Valid() && fresh(trarray) && trarray[..] == resultlst.elems
  {
    ghost var all := resultlst.elems;
    trarray := new TestResult[nChecked](_ => FreshResult);
    var i := 0;
    resultlst.Front();
    while !resultlst.AtEnd()
      invariant resultlst.Valid() && resultlst.elems == all && trarray.Length == |all|
      invariant i == if all == [] then 0 else resultlst.current
      invariant trarray[..i] == all[..i]
      decreases |all| - i
    {
      var tr := resultlst.Val();
      trarray[i] := tr.value;
      i := i + 1;
      resultlst.Advance();
    }
  }
}
