/** Inputs on which the contract check says the wrong thing: silence over an exposed
    raise, three times, and alarms over raises that come after an entry, twice. */
module RouteBlindSpots {
  import opened RouteSyntax
  import opened RouteClosure
  import opened RouteSemantics
  import opened RouteArrivals
  import opened RouteChecker
  import opened RouteVerdict
  import opened RouteAlarms
  import opened RouteHelpers

  const ENTRY: seq<Callee> := [Name("execute_with_pipeline")]
  const NOT_FOUND: Exc := Invoke(Name("HTTPException"), [])
  const GET: Decorator := Decorator(1, Attr("get"), true, true, [])

  lemma PlainCalls()
    ensures Enters(ENTRY, PIPELINE_CALLS) && !Enters([], PIPELINE_CALLS)
    ensures !Enters(ExcCalls(NOT_FOUND), PIPELINE_CALLS)
  {
    assert "execute_with_pipeline" in NamesOf(ENTRY[0]) * PIPELINE_CALLS;
    assert ENTRY[0] in ENTRY;
    assert NamesOf(Name("HTTPException")) * PIPELINE_CALLS == {};
  }

  lemma PlainRaise(line: nat)
    ensures RaisesIn(Raise(line, NOT_FOUND)) == [line]
    ensures RaiseLines([Raise(line, NOT_FOUND)]) == [line]
  {
    assert IsHttp(NOT_FOUND);
  }

  // ---- an entry under a condition ----

  const GUARDED: Stmt := If(3, [], [Eval(4, ENTRY)], [])
  const MISSING: Stmt := Raise(5, NOT_FOUND)
  const CONDITIONAL: Func := Func("handler", 2, [GET], [], [GUARDED, MISSING])

  lemma ConditionalSilent()
    ensures Silent(CONDITIONAL, PIPELINE_CALLS)
  {
    PlainCalls();
    assert EntryLines([Eval(4, ENTRY)], PIPELINE_CALLS) == [4];
    assert 4 in EntriesIn(GUARDED, PIPELINE_CALLS);
    assert 4 in RouteEntries(CONDITIONAL, PIPELINE_CALLS);
    assert RaiseLines([Eval(4, ENTRY)]) == [] && RaisesIn(GUARDED) == [];
    assert CONDITIONAL.body[1..] == [MISSING];
    PlainRaise(5);
    assert RaiseLines(CONDITIONAL.body) == [5];
  }

  lemma ConditionalFlows()
    ensures FlowAll(CONDITIONAL.body, PIPELINE_CALLS, ToRaise).hits
  {
    PlainCalls();
    assert FlowOf(GUARDED, PIPELINE_CALLS, ToRaise).falls;
    assert CONDITIONAL.body[1..] == [MISSING];
    assert FlowOf(MISSING, PIPELINE_CALLS, ToRaise).hits;
    assert FlowAll([MISSING], PIPELINE_CALLS, ToRaise).hits;
  }

  /** An entry that only one branch makes silences the check for the rest of the route,
      although an execution that skips the branch reaches the raise exposed. */
  lemma ConditionalEntryHides()
    ensures Silent(CONDITIONAL, PIPELINE_CALLS) && CanExpose(CONDITIONAL.body, PIPELINE_CALLS)
  {
    ConditionalSilent();
    ConditionalFlows();
    ExposureExactly(CONDITIONAL.body, PIPELINE_CALLS);
  }

  // ---- a helper that enters in one branch only ----

  const MAYBE: Func := Func("_maybe", 1, [], [], [If(2, [], [Eval(3, ENTRY)], [])])
  const ASKED: seq<Callee> := [Name("_maybe")]
  const ASKING: Func := Func("handler", 5, [Decorator(4, Attr("get"), true, true, [])], [], [Eval(6, ASKED), Raise(7, NOT_FOUND)])
  const ASKING_MODULE: seq<Stmt> := [Def(MAYBE), Def(ASKING)]

  lemma MaybeCalls()
    ensures CalledIn(ASKING_MODULE[0]) * PIPELINE_CALLS != {}
  {
    var entry := Eval(3, ENTRY);
    assert "execute_with_pipeline" in AllNames(ENTRY) by {
      assert ENTRY[0] in ENTRY && "execute_with_pipeline" in NamesOf(ENTRY[0]);
    }
    assert "execute_with_pipeline" in CalledNames([entry]);
    assert "execute_with_pipeline" in CalledIn(MAYBE.body[0]);
    assert "execute_with_pipeline" in CalledNames(MAYBE.body);
    assert "execute_with_pipeline" in CalledIn(ASKING_MODULE[0]) * PIPELINE_CALLS;
  }

  lemma MaybeHeld()
    ensures "_maybe" in EnteringNames(ASKING_MODULE)
  {
    MaybeCalls();
    assert Chain(Outline(ASKING_MODULE), [0]);
    ShortChainsFound(ASKING_MODULE, [0]);
  }

  /** The helper can be left through its empty branch, whatever surely enters. */
  lemma MaybeLeaves(sure: set<string>)
    ensures FlowAll(MAYBE.body, sure, ToLeave) != NoFlow
  {
    assert !Enters([], sure);
    assert FlowAll([], sure, ToLeave).falls;
    assert FlowOf(MAYBE.body[0], sure, ToLeave).falls;
    assert MAYBE.body[1..] == [];
  }

  lemma {:induction false} MaybeNeverSure(depth: nat)
    ensures "_maybe" !in SureNames(ASKING_MODULE, depth) && "HTTPException" !in SureNames(ASKING_MODULE, depth)
  {
    if depth > 0 {
      MaybeNeverSure(depth - 1);
      var sure := SureNames(ASKING_MODULE, depth - 1);
      MaybeLeaves(sure);
      assert Defines(ASKING_MODULE[0], "_maybe");
      assert !BodiesEnter(ASKING_MODULE, "_maybe", sure);
      assert forall i :: 0 <= i < |ASKING_MODULE| ==> ASKING_MODULE[i].fn.name != "HTTPException";
    }
  }

  lemma AskingFlows(sure: set<string>)
    requires "_maybe" !in sure && "HTTPException" !in sure
    ensures FlowAll(ASKING.body, sure, ToRaise).hits
  {
    assert NamesOf(ASKED[0]) == {"_maybe"} && !Enters(ASKED, sure);
    assert NamesOf(Name("HTTPException")) == {"HTTPException"} && !Enters(ExcCalls(NOT_FOUND), sure);
    assert ASKING.body[1..] == [Raise(7, NOT_FOUND)];
    assert FlowOf(Raise(7, NOT_FOUND), sure, ToRaise).hits;
    assert FlowAll([Raise(7, NOT_FOUND)], sure, ToRaise).hits;
  }

  lemma AskingSilent()
    ensures Silent(ASKING, EnteringNames(ASKING_MODULE))
  {
    var entering := EnteringNames(ASKING_MODULE);
    MaybeHeld();
    assert ASKED[0] in ASKED && "_maybe" in NamesOf(ASKED[0]) * entering;
    assert 6 in EntriesIn(ASKING.body[0], entering);
    assert 6 in RouteEntries(ASKING, entering);
    assert ASKING.body[1..] == [Raise(7, NOT_FOUND)];
    PlainRaise(7);
    assert RaiseLines(ASKING.body) == [7];
  }

  /** A helper that calls the pipeline in one branch is in the set, so its call silences the
      check; an execution whose call of the helper takes the other branch is exposed. */
  lemma MaybeHelperHides(depth: nat)
    ensures var sure := SureNames(ASKING_MODULE, depth);
      && "_maybe" in EnteringNames(ASKING_MODULE) && "_maybe" !in sure
      && Silent(ASKING, EnteringNames(ASKING_MODULE))
      && CanExposeFreely(ASKING.body, sure, EnteringNames(ASKING_MODULE))
  {
    MaybeHeld();
    MaybeNeverSure(depth);
    AskingSilent();
    AskingFlows(SureNames(ASKING_MODULE, depth));
    ExposureExactly(ASKING.body, SureNames(ASKING_MODULE, depth));
    FreelyExactly(ASKING.body, SureNames(ASKING_MODULE, depth), EnteringNames(ASKING_MODULE));
  }

  // ---- a route named like the verb in its own decorator ----

  const SHADOWED: Func := Func("get", 2, [GET], [], [Raise(3, NOT_FOUND), Eval(4, ENTRY)])
  const SHADOWED_MODULE: seq<Stmt> := [Def(SHADOWED)]

  lemma ShadowedCalls()
    ensures CalledIn(SHADOWED_MODULE[0]) * PIPELINE_CALLS != {}
  {
    var entry := Eval(4, ENTRY);
    assert "execute_with_pipeline" in AllNames(ENTRY) by {
      assert ENTRY[0] in ENTRY && "execute_with_pipeline" in NamesOf(ENTRY[0]);
    }
    assert "execute_with_pipeline" in CalledNames([entry]);
    assert SHADOWED.body[1..] == [entry];
    assert "execute_with_pipeline" in CalledNames(SHADOWED.body);
    assert "execute_with_pipeline" in CalledIn(SHADOWED_MODULE[0]) * PIPELINE_CALLS;
  }

  lemma Unreached(m: seq<Stmt>, n: string)
    requires n !in PIPELINE_CALLS
    requires forall c :: Chain(Outline(m), c) && Outline(m)[c[0]].name == n ==> Forward(c) > 2
    ensures n !in EnteringNames(m)
  {
    EnteringExactly(m);
  }

  lemma ShadowedNames()
    ensures "get" in EnteringNames(SHADOWED_MODULE) && "HTTPException" !in EnteringNames(SHADOWED_MODULE)
  {
    ShadowedCalls();
    assert Chain(Outline(SHADOWED_MODULE), [0]);
    ShortChainsFound(SHADOWED_MODULE, [0]);
    Unreached(SHADOWED_MODULE, "HTTPException");
  }

  /** A module-level function named after an HTTP verb and reaching the pipeline makes
      `@router.get(...)` itself count as an entry, above every raise of the route. */
  lemma VerbNameHides()
    ensures var entering := EnteringNames(SHADOWED_MODULE);
      IsRoute(SHADOWED) && Silent(SHADOWED, entering) && CanExpose(SHADOWED.body, entering)
  {
    var entering := EnteringNames(SHADOWED_MODULE);
    ShadowedNames();
    assert GET in SHADOWED.decorators;
    assert DecoratorCalls(GET)[0] == Attr("get");
    assert "get" in NamesOf(Attr("get")) * entering;
    assert Enters(DecoratorCalls(GET), entering);
    assert DecoratorEntries(SHADOWED.decorators, entering)[0] == 1;
    assert 1 in RouteEntries(SHADOWED, entering);
    var missing := SHADOWED.body[0];
    PlainRaise(3);
    assert SHADOWED.body[1..] == [Eval(4, ENTRY)];
    assert RaiseLines([Eval(4, ENTRY)]) == [] && RaisesIn(missing) == [3];
    assert RaiseLines(SHADOWED.body) == [3];
    assert !Enters(OwnCalls(missing), entering);
    assert FlowOf(missing, entering, ToRaise).hits;
    ExposureExactly(SHADOWED.body, entering);
  }

  // ---- an entry and a raise in one loop ----

  const RETRY: Stmt := Loop(3, [], [If(4, [], [Raise(5, NOT_FOUND)], []), Eval(6, ENTRY)])
  const RETRYING: Func := Func("handler", 2, [GET], [], [RETRY])

  /** In a loop the reported raise may follow the entry of an earlier round. */
  lemma LoopAlarmMayBeFalse()
    ensures Reported(RETRYING, PIPELINE_CALLS, 5) && CanArriveLate(RETRYING.body, 5, PIPELINE_CALLS)
  {
    LoopReported();
    LoopLate();
    LatenessExactly(RETRYING.body, 5, PIPELINE_CALLS);
  }

  /** What a second statement does, once the first has completed with `x`. */
  lemma SecondDoes(s: Stmt, t: Stmt, bit: bool, x: bool, line: nat)
    requires x in WaysOf(s, bit, line, PIPELINE_CALLS).falls
    ensures WaysAll([t], x, line, PIPELINE_CALLS).late ==> WaysAll([s, t], bit, line, PIPELINE_CALLS).late
    ensures WaysAll([t], x, line, PIPELINE_CALLS).falls <= WaysAll([s, t], bit, line, PIPELINE_CALLS).falls
  {
    assert [s, t][1..] == [t];
  }

  lemma OneDoes(s: Stmt, bit: bool, line: nat)
    ensures forall x :: x in WaysAll([s], bit, line, PIPELINE_CALLS).falls <==> x in WaysOf(s, bit, line, PIPELINE_CALLS).falls
    ensures WaysAll([s], bit, line, PIPELINE_CALLS).late == WaysOf(s, bit, line, PIPELINE_CALLS).late
  {
    assert [s][1..] == [];
    assert WaysAll([], true, line, PIPELINE_CALLS) == FallsOnly(true);
    assert WaysAll([], false, line, PIPELINE_CALLS) == FallsOnly(false);
  }

  /** A round of the loop can complete with the pipeline entered. */
  lemma RoundEnters()
    ensures true in WaysAll(RETRY.body, false, 5, PIPELINE_CALLS).falls
  {
    var test, entry := RETRY.body[0], RETRY.body[1];
    PlainCalls();
    OneDoes(entry, false, 5);
    assert WaysAll([], false, 5, PIPELINE_CALLS).falls == {false};
    SecondDoes(test, entry, false, false, 5);
  }

  lemma RoundLate()
    ensures WaysAll(RETRY.body, true, 5, PIPELINE_CALLS).late
  {
    RaiseLate(5, true);
    assert WaysOf(RETRY.body[0], true, 5, PIPELINE_CALLS).late;
  }

  lemma LoopLate()
    ensures WaysAll(RETRYING.body, false, 5, PIPELINE_CALLS).late
  {
    PlainCalls();
    RoundEnters();
    RoundLate();
    OneDoes(RETRY, false, 5);
  }

  lemma RaiseLate(line: nat, bit: bool)
    ensures WaysAll([Raise(line, NOT_FOUND)], bit, line, PIPELINE_CALLS).late == bit
  {
    PlainCalls();
    assert IsHttp(NOT_FOUND);
  }

  lemma LoopReported()
    ensures Reported(RETRYING, PIPELINE_CALLS, 5)
  {
    PlainCalls();
    var test, entry, missing := RETRY.body[0], RETRY.body[1], Raise(5, NOT_FOUND);
    assert RETRY.body[1..] == [entry];
    PlainRaise(5);
    assert RaisesIn(test) == [5];
    assert 5 in RaiseLines(RETRY.body);
    assert 5 in RaiseLines(RETRYING.body);
    assert EntryLines([missing], PIPELINE_CALLS) == [];
    assert EntriesIn(test, PIPELINE_CALLS) == [];
    assert EntryLines([entry], PIPELINE_CALLS) == [6];
    assert EntryLines(RETRY.body, PIPELINE_CALLS) == [6];
    assert EntryLines(RETRYING.body, PIPELINE_CALLS) == [6];
    assert NamesOf(Attr("get")) * PIPELINE_CALLS == {};
    assert DecoratorCalls(GET) == [Attr("get")];
    assert DecoratorEntries(RETRYING.decorators, PIPELINE_CALLS) == [];
  }

  // ---- an entry in the header of a nested function ----

  const NESTED: Stmt := Def(Func("fallback", 3, [], ENTRY, []))
  const DEFAULTED: Func := Func("handler", 2, [GET], [], [NESTED, Raise(4, NOT_FOUND)])

  lemma DefaultedReported()
    ensures Reported(DEFAULTED, PIPELINE_CALLS, 4)
  {
    PlainCalls();
    var missing := DEFAULTED.body[1];
    assert DEFAULTED.body[1..] == [missing];
    PlainRaise(4);
    assert RaisesIn(NESTED) == [] && EntriesIn(NESTED, PIPELINE_CALLS) == [];
    assert RaiseLines(DEFAULTED.body) == [4];
    assert EntryLines([missing], PIPELINE_CALLS) == [];
    assert EntryLines(DEFAULTED.body, PIPELINE_CALLS) == [];
    assert NamesOf(Attr("get")) * PIPELINE_CALLS == {};
    assert DecoratorCalls(GET) == [Attr("get")];
    assert DecoratorEntries(DEFAULTED.decorators, PIPELINE_CALLS) == [];
  }

  lemma DefaultedLate()
    ensures WaysAll(DEFAULTED.body, false, 4, PIPELINE_CALLS).late
  {
    PlainCalls();
    assert OwnCalls(NESTED) == ENTRY;
    RaiseLate(4, true);
    SecondDoes(NESTED, Raise(4, NOT_FOUND), false, true, 4);
  }

  /** Two statements without statements inside them. */
  lemma TwoInOrder(s: Stmt, t: Stmt)
    requires (s.Def? || s.Raise?) && (t.Def? || t.Raise?) && LineOf(s) < LineOf(t)
    ensures LoopFree([s, t]) && Ordered([s, t])
  {
    assert [s, t][1..] == [t] && [t][1..] == [];
    assert LoopFree([]) && Ordered([]) && Lines([]) == {};
    assert LoopFreeIn(s) && LoopFreeIn(t) && LoopFree([t]);
    assert LinesIn(s) == {LineOf(s)} && LinesIn(t) == {LineOf(t)} && Lines([t]) == {LineOf(t)};
    assert OrderedIn(s) && OrderedIn(t) && Ordered([t]);
  }

  lemma DefaultedShape()
    ensures LoopFree(DEFAULTED.body) && Ordered(DEFAULTED.body)
  {
    TwoInOrder(NESTED, Raise(4, NOT_FOUND));
  }

  /** Calls in a nested function's decorators and default values run with the route but are
      not counted as entries: even without a loop, an alarm after them is false. */
  lemma DefaultAlarmIsFalse()
    ensures LoopFree(DEFAULTED.body) && Ordered(DEFAULTED.body)
    ensures Reported(DEFAULTED, PIPELINE_CALLS, 4) && CanArriveLate(DEFAULTED.body, 4, PIPELINE_CALLS)
  {
    DefaultedShape();
    DefaultedReported();
    DefaultedLate();
    LatenessExactly(DEFAULTED.body, 4, PIPELINE_CALLS);
  }

  // ---- a helper four calls away, every callee defined later ----

  function Helper(name: string, callee: string): Stmt {
    Def(Func(name, 1, [], [], [Eval(2, [Name(callee)])]))
  }

  function DeepName(i: nat): string {
    if i == 0 then "a" else if i == 1 then "b" else if i == 2 then "c" else if i == 3 then "d"
    else "execute_with_pipeline"
  }

  /** Helpers a, b, c and d, each calling the next, and d calling the pipeline. */
  const DEEP: seq<Stmt> := seq(4, (i: nat) => Helper(DeepName(i), DeepName(i + 1)))

  lemma HelperCalls(name: string, callee: string)
    ensures CalledIn(Helper(name, callee)) == {callee}
  {
    var calls := [Name(callee)];
    assert AllNames(calls) == {callee} by {
      assert calls[0] in calls && callee in NamesOf(calls[0]);
    }
    assert CalledNames([Eval(2, calls)]) == {callee};
  }

  /** What the closure sees of them. */
  const DEEP_PARTS: seq<Part> := seq(4, (i: nat) => Part(true, DeepName(i), {DeepName(i + 1)}))

  lemma DeepOutline()
    ensures Outline(DEEP) == DEEP_PARTS
  {
    forall i: nat | i < 4 ensures Outline(DEEP)[i] == DEEP_PARTS[i] { HelperCalls(DeepName(i), DeepName(i + 1)); }
  }

  lemma DeepDistinct(i: nat, j: nat)
    requires i <= 4 && j <= 4 && DeepName(i) == DeepName(j)
    ensures i == j
  {
    assert DeepName(i)[0] == DeepName(j)[0];
  }

  /** Only the last helper calls the pipeline; any other is followed by the next one. */
  lemma DeepNext(c: seq<nat>, k: nat)
    requires Chain(DEEP_PARTS, c) && k < |c| && c[k] < 3
    ensures k + 1 < |c| && c[k + 1] == c[k] + 1
  {
    assert |DeepName(c[k] + 1)| == 1;
    assert DEEP_PARTS[c[k]].calls * PIPELINE_CALLS == {};
    assert Calls(DEEP_PARTS, c[k], c[k + 1]);
    DeepDistinct(c[k + 1], c[k] + 1);
  }

  lemma DeepChain()
    ensures Chain(DEEP_PARTS, [0, 1, 2, 3])
  {
    assert DeepName(4) in DEEP_PARTS[3].calls * PIPELINE_CALLS;
  }

  lemma ThreeUp(c: seq<nat>)
    requires |c| >= 4 && c[0] < c[1] < c[2] < c[3]
    ensures Forward(c) >= 3
  {
    var t := c[1..];
    var u := t[1..];
    assert Forward(u) == 1 + Forward(u[1..]);
  }

  lemma DeepFromA(c: seq<nat>)
    requires Chain(DEEP_PARTS, c) && DEEP_PARTS[c[0]].name == "a"
    ensures Forward(c) > 2
  {
    DeepDistinct(c[0], 0);
    DeepNext(c, 0);
    DeepNext(c, 1);
    DeepNext(c, 2);
    ThreeUp(c);
  }

  /** Three passes miss a helper whose chain needs three forward links. */
  lemma ThreeForwardLinksMissed()
    ensures Chain(Outline(DEEP), [0, 1, 2, 3]) && DEEP[0].Def? && DEEP[0].fn.name == "a" && "a" !in EnteringNames(DEEP)
  {
    DeepOutline();
    DeepChain();
    forall c | Chain(DEEP_PARTS, c) && DEEP_PARTS[c[0]].name == "a" ensures Forward(c) > 2 { DeepFromA(c); }
    Unreached(DEEP, "a");
  }
}
