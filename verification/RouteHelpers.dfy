/** Which helpers enter the pipeline on every execution: a call to a module-level helper runs
    its body, and the check counts helpers that may run through without entering. */
module RouteHelpers {
  import opened RouteSyntax
  import opened RouteClosure
  import opened RouteSemantics
  import opened RouteChecker
  import opened RouteVerdict

  predicate Defines(s: Stmt, name: string) {
    s.Def? && s.fn.name == name
  }

  /** The module defines the name, and no body of that name can be left without a call to one
      of the names that surely enter. */
  predicate BodiesEnter(m: seq<Stmt>, name: string, sure: set<string>) {
    forall i :: 0 <= i < |m| && Defines(m[i], name) ==> FlowAll(m[i].fn.body, sure, ToLeave) == NoFlow
  }

  /** The names whose call enters on every execution, as calls nested up to `depth` show. */
  function SureNames(m: seq<Stmt>, depth: nat): set<string> {
    if depth == 0 then PIPELINE_CALLS
    else
      var sure := SureNames(m, depth - 1);
      sure + set i | 0 <= i < |m| && m[i].Def? && BodiesEnter(m, m[i].fn.name, sure) :: m[i].fn.name
  }

  /** A helper surely enters, one call deeper, exactly when no execution of a body of that name
      completes, returns or raises before calling something that surely enters. */
  lemma SureExactly(m: seq<Stmt>, depth: nat, name: string)
    ensures name in SureNames(m, depth + 1) <==>
      || name in SureNames(m, depth)
      || ((exists i :: 0 <= i < |m| && Defines(m[i], name)) &&
          forall i :: 0 <= i < |m| && Defines(m[i], name) ==> !CanReach(m[i].fn.body, SureNames(m, depth), ToLeave))
  {
    var sure := SureNames(m, depth);
    forall i | 0 <= i < |m| && Defines(m[i], name)
      ensures FlowAll(m[i].fn.body, sure, ToLeave) == NoFlow <==> !CanReach(m[i].fn.body, sure, ToLeave)
    {
      LeavingExactly(m[i].fn.body, sure);
    }
    if i :| 0 <= i < |m| && Defines(m[i], name) { assert m[i].Def? && m[i].fn.name == name; }
  }

  // ---- executions in which other helpers may enter or not ----

  function Current(c: Config): Stmt
    requires c.work != []
  {
    if c.work[0].Do? then c.work[0].s else c.work[0].loop
  }

  /** Calls to names in `sure` enter; calls to other names in `held` may do so. */
  ghost predicate FreeStep(sure: set<string>, held: set<string>, c: Config, c': Config) {
    || Step(sure, c, c')
    || (c.work != [] && Enters(OwnCalls(Current(c)), held) && Step(sure, c.(entered := true), c'))
  }

  ghost predicate IsFreeRun(sure: set<string>, held: set<string>, r: seq<Config>) {
    r != [] && forall i :: 0 <= i < |r| - 1 ==> FreeStep(sure, held, r[i], r[i + 1])
  }

  ghost predicate CanExposeFreely(body: seq<Stmt>, sure: set<string>, held: set<string>) {
    exists r :: IsFreeRun(sure, held, r) && r[0] == Start(body) && Exposed(sure, r[|r| - 1])
  }

  /** An execution that has not entered took none of the entries it might have taken. */
  lemma {:induction false} NeverEntered(sure: set<string>, held: set<string>, r: seq<Config>, n: nat)
    requires IsFreeRun(sure, held, r) && n < |r| && !r[|r| - 1].entered
    ensures !r[n].entered
    decreases |r| - n
  {
    if n < |r| - 1 {
      NeverEntered(sure, held, r, n + 1);
      assert FreeStep(sure, held, r[n], r[n + 1]);
    }
  }

  /** Helpers that may enter change nothing about what an execution can do before it enters. */
  lemma FreelyExactly(body: seq<Stmt>, sure: set<string>, held: set<string>)
    ensures CanExposeFreely(body, sure, held) <==> CanExpose(body, sure)
  {
    if r :| IsFreeRun(sure, held, r) && r[0] == Start(body) && Exposed(sure, r[|r| - 1]) {
      forall i | 0 <= i < |r| - 1 ensures Step(sure, r[i], r[i + 1]) {
        NeverEntered(sure, held, r, i + 1);
        assert FreeStep(sure, held, r[i], r[i + 1]);
      }
      assert IsRun(sure, r);
    }
    if r :| IsRun(sure, r) && r[0] == Start(body) && Exposed(sure, r[|r| - 1]) {
      assert IsFreeRun(sure, held, r);
    }
  }

  /** The check's silence is sound when the first entry is an unconditional top-level call to
      a helper that enters on every execution, or when the route has no entry at all. */
  lemma HelperSilenceSound(m: seq<Stmt>, fn: Func, depth: nat)
    requires Ordered(fn.body) && Silent(fn, EnteringNames(m))
    requires RouteEntries(fn, EnteringNames(m)) == [] ||
      exists k: nat :: EntersSurely(fn, EnteringNames(m), SureNames(m, depth), k)
    ensures !CanExposeFreely(fn.body, SureNames(m, depth), EnteringNames(m))
  {
    SilenceSound(fn, EnteringNames(m), SureNames(m, depth));
    FreelyExactly(fn.body, SureNames(m, depth), EnteringNames(m));
  }
}
