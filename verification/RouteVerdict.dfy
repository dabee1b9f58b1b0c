/** When the silence of the contract check is sound. */
module RouteVerdict {
  import opened RouteSyntax
  import opened RouteSemantics
  import opened RouteChecker

  // ---- textual order ----

  function Lines(ss: seq<Stmt>): set<nat>
    decreases ss, 0
  {
    if ss == [] then {} else LinesIn(ss[0]) + Lines(ss[1..])
  }

  function LinesIn(s: Stmt): set<nat>
    decreases s, 1
  {
    {LineOf(s)} +
    match s
    case If(_, _, thn, els) => Lines(thn) + Lines(els)
    case Loop(_, _, body) => Lines(body)
    case With(_, _, body) => Lines(body)
    case _ => {}
  }

  ghost predicate Before(xs: set<nat>, ys: set<nat>) {
    forall a, b :: a in xs && b in ys ==> a < b
  }

  /** Every statement has a line of its own and lines grow in textual order. */
  ghost predicate Ordered(ss: seq<Stmt>)
    decreases ss, 0
  {
    ss == [] || (OrderedIn(ss[0]) && Before(LinesIn(ss[0]), Lines(ss[1..])) && Ordered(ss[1..]))
  }

  ghost predicate OrderedIn(s: Stmt)
    decreases s, 1
  {
    match s
    case If(line, _, thn, els) =>
      Before({line}, Lines(thn) + Lines(els)) && Before(Lines(thn), Lines(els)) && Ordered(thn) && Ordered(els)
    case Loop(line, _, body) => Before({line}, Lines(body)) && Ordered(body)
    case With(line, _, body) => Before({line}, Lines(body)) && Ordered(body)
    case _ => true
  }

  lemma RaisesHaveLines(ss: seq<Stmt>)
    ensures forall l :: l in RaiseLines(ss) ==> l in Lines(ss)
    decreases ss, 0
  {
    if ss != [] {
      RaisesInHaveLines(ss[0]);
      RaisesHaveLines(ss[1..]);
    }
  }

  lemma RaisesInHaveLines(s: Stmt)
    ensures forall l :: l in RaisesIn(s) ==> l in LinesIn(s)
    decreases s, 1
  {
    match s
    case If(_, _, thn, els) => RaisesHaveLines(thn); RaisesHaveLines(els);
    case Loop(_, _, body) => RaisesHaveLines(body);
    case With(_, _, body) => RaisesHaveLines(body);
    case _ =>
  }

  // ---- silence ----

  lemma {:induction false} SplitRaises(xs: seq<Stmt>, ys: seq<Stmt>)
    ensures RaiseLines(xs + ys) == RaiseLines(xs) + RaiseLines(ys)
  {
    if xs == [] {
      assert xs + ys == ys;
    } else {
      assert (xs + ys)[0] == xs[0] && (xs + ys)[1..] == xs[1..] + ys;
      SplitRaises(xs[1..], ys);
      LinesAssociate(RaisesIn(xs[0]), RaiseLines(xs[1..]), RaiseLines(ys));
    }
  }

  lemma LinesAssociate(xs: seq<nat>, ys: seq<nat>, zs: seq<nat>)
    ensures (xs + ys) + zs == xs + (ys + zs)
  {}

  lemma ThenAssociates(f: Flow, g: Flow, h: Flow)
    ensures Then(Then(f, g), h) == Then(f, Then(g, h))
  {}

  lemma {:induction false} SplitFlow(xs: seq<Stmt>, ys: seq<Stmt>, entering: set<string>)
    ensures FlowAll(xs + ys, entering, ToRaise) == Then(FlowAll(xs, entering, ToRaise), FlowAll(ys, entering, ToRaise))
  {
    if xs == [] {
      assert xs + ys == ys;
    } else {
      assert (xs + ys)[0] == xs[0] && (xs + ys)[1..] == xs[1..] + ys;
      SplitFlow(xs[1..], ys, entering);
      ThenAssociates(FlowOf(xs[0], entering, ToRaise), FlowAll(xs[1..], entering, ToRaise), FlowAll(ys, entering, ToRaise));
    }
  }

  lemma {:induction false} SplitLines(xs: seq<Stmt>, ys: seq<Stmt>)
    ensures Lines(xs + ys) == Lines(xs) + Lines(ys)
    ensures Ordered(xs + ys) ==> Before(Lines(xs), Lines(ys))
  {
    if xs == [] {
      assert xs + ys == ys;
    } else {
      assert (xs + ys)[1..] == xs[1..] + ys;
      SplitLines(xs[1..], ys);
    }
  }

  lemma NoRaiseNoFlow(ss: seq<Stmt>, entering: set<string>)
    requires RaiseLines(ss) == []
    ensures !FlowAll(ss, entering, ToRaise).hits
    decreases ss, 0
  {
    if ss != [] {
      NoRaiseNoFlowIn(ss[0], entering);
      NoRaiseNoFlow(ss[1..], entering);
    }
  }

  lemma NoRaiseNoFlowIn(s: Stmt, entering: set<string>)
    requires RaisesIn(s) == []
    ensures !FlowOf(s, entering, ToRaise).hits
    decreases s, 1
  {
    match s
    case If(_, _, thn, els) => NoRaiseNoFlow(thn, entering); NoRaiseNoFlow(els, entering);
    case Loop(_, _, body) => NoRaiseNoFlow(body, entering);
    case With(_, _, body) => NoRaiseNoFlow(body, entering);
    case _ =>
  }

  /** The first entry line of the route is the line of its top-level statement `k`,
      which makes the entering call itself. */
  ghost predicate EntersAtTop(fn: Func, entering: set<string>, k: nat) {
    && k < |fn.body| && !fn.body[k].Def?
    && Enters(OwnCalls(fn.body[k]), entering)
    && forall e :: e in RouteEntries(fn, entering) ==> fn.body[k].line <= e
  }

  ghost predicate Silent(fn: Func, entering: set<string>) {
    forall line :: !Reported(fn, entering, line)
  }

  /** ... and that call goes to a name that surely enters the pipeline. */
  ghost predicate EntersSurely(fn: Func, entering: set<string>, sure: set<string>, k: nat) {
    EntersAtTop(fn, entering, k) && Enters(OwnCalls(fn.body[k]), sure)
  }

  /** Silence of the check, which counts the names in `entering`, is sound when the route's
      first entry is an unconditional top-level statement that surely enters, or when it has
      no entry at all: no execution is exposed, though only the names in `sure` enter. */
  lemma SilenceSound(fn: Func, entering: set<string>, sure: set<string>)
    requires Ordered(fn.body) && Silent(fn, entering)
    requires RouteEntries(fn, entering) == [] || exists k: nat :: EntersSurely(fn, entering, sure, k)
    ensures !CanExpose(fn.body, sure)
  {
    ExposureExactly(fn.body, sure);
    if RouteEntries(fn, entering) == [] {
      if RaiseLines(fn.body) != [] {
        assert Reported(fn, entering, RaiseLines(fn.body)[0]);
      }
      NoRaiseNoFlow(fn.body, sure);
    } else {
      var k: nat :| EntersSurely(fn, entering, sure, k);
      var pre, post := fn.body[..k], fn.body[k..];
      assert fn.body == pre + post;
      SplitFlow(pre, post, sure);
      NoRaiseBefore(fn, entering, k);
      NoRaiseNoFlow(pre, sure);
      assert post[0] == fn.body[k];
    }
  }

  /** A raise above the first entry is reported. */
  lemma AboveIsReported(fn: Func, entering: set<string>, k: nat, line: nat)
    requires Ordered(fn.body) && EntersAtTop(fn, entering, k) && line in RaiseLines(fn.body[..k])
    ensures Reported(fn, entering, line)
  {
    var pre, post := fn.body[..k], fn.body[k..];
    assert fn.body == pre + post && post[0] == fn.body[k];
    SplitRaises(pre, post);
    SplitLines(pre, post);
    RaisesHaveLines(pre);
    assert line in Lines(pre);
    assert LineOf(post[0]) in LinesIn(post[0]) && fn.body[k].line in Lines(post);
  }

  /** A silent route raises nothing above its first entry. */
  lemma NoRaiseBefore(fn: Func, entering: set<string>, k: nat)
    requires Ordered(fn.body) && Silent(fn, entering) && EntersAtTop(fn, entering, k)
    ensures RaiseLines(fn.body[..k]) == []
  {
    if RaiseLines(fn.body[..k]) != [] { AboveIsReported(fn, entering, k, RaiseLines(fn.body[..k])[0]); }
  }

  /** A silent verdict is wrong exactly when the flow analysis finds an exposed raise, which
      then stands in the shadow of an entry that an execution can miss. */
  lemma SilenceWrongExactly(fn: Func, entering: set<string>, sure: set<string>)
    requires Ordered(fn.body) && Silent(fn, entering)
    ensures CanExpose(fn.body, sure) <==> FlowAll(fn.body, sure, ToRaise).hits
    ensures CanExpose(fn.body, sure) ==>
      RouteEntries(fn, entering) != [] && forall k: nat :: !EntersSurely(fn, entering, sure, k)
  {
    ExposureExactly(fn.body, sure);
    if RouteEntries(fn, entering) == [] || exists k: nat :: EntersSurely(fn, entering, sure, k) {
      SilenceSound(fn, entering, sure);
    }
  }
}
