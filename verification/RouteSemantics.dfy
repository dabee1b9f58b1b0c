/** How a route body runs, which raises it can reach before it has entered the
    pipeline, and a flow analysis that decides exactly that. */
module RouteSemantics {
  import opened RouteSyntax

  /** What is still to be done: a statement, or going round a loop once more. */
  datatype Item = Do(s: Stmt) | Again(loop: Stmt)

  /** `entered` records that a call to an entering name has been made. */
  datatype Config = Config(work: seq<Item>, entered: bool)

  function Todo(ss: seq<Stmt>): seq<Item> {
    seq(|ss|, i requires 0 <= i < |ss| => Do(ss[i]))
  }

  /** The work that is left after leaving the innermost loop. */
  function AfterBreak(work: seq<Item>): seq<Item> {
    if work == [] then [] else if work[0].Again? then work[1..] else AfterBreak(work[1..])
  }

  /** The work that is left after skipping to the innermost loop's next round. */
  function AfterContinue(work: seq<Item>): seq<Item> {
    if work == [] || work[0].Again? then work else AfterContinue(work[1..])
  }

  /** One step of a body: conditions, loop exits and loop rounds are free choices. */
  ghost predicate Step(entering: set<string>, c: Config, c': Config) {
    && c.work != []
    && var rest := c.work[1..];
       var s := if c.work[0].Do? then c.work[0].s else c.work[0].loop;
       var entered := c.entered || Enters(OwnCalls(s), entering);
       match s
       case Eval(_, _) => c' == Config(rest, entered)
       case Return(_, _) => c' == Config([], entered)
       case Raise(_, _) => c' == Config([], entered)
       case Break(_) => c' == Config(AfterBreak(rest), entered)
       case Continue(_) => c' == Config(AfterContinue(rest), entered)
       case If(_, _, thn, els) => c' == Config(Todo(thn) + rest, entered) || c' == Config(Todo(els) + rest, entered)
       case Loop(_, _, body) => c' == Config(Todo(body) + [Again(s)] + rest, entered) || c' == Config(rest, entered)
       case With(_, _, body) => c' == Config(Todo(body) + rest, entered)
       case Def(_) => c' == Config(rest, entered)
  }

  ghost predicate IsRun(entering: set<string>, r: seq<Config>) {
    r != [] && forall i :: 0 <= i < |r| - 1 ==> Step(entering, r[i], r[i + 1])
  }

  function Start(body: seq<Stmt>): Config {
    Config(Todo(body), false)
  }

  /** The configuration is about to execute a `raise HTTPException`. */
  predicate AtHttpRaise(c: Config) {
    c.work != [] && c.work[0].Do? && c.work[0].s.Raise? && IsHttp(c.work[0].s.exc)
  }

  /** ... and nothing, not even its own arguments, enters the pipeline first. */
  predicate Exposed(entering: set<string>, c: Config) {
    AtHttpRaise(c) && !c.entered && !Enters(OwnCalls(c.work[0].s), entering)
  }

  /** Some execution of the body raises `HTTPException` by name before any entering call. */
  ghost predicate CanExpose(body: seq<Stmt>, entering: set<string>) {
    exists r :: IsRun(entering, r) && r[0] == Start(body) && Exposed(entering, r[|r| - 1])
  }

  /** What an execution may be on its way to: a `raise HTTPException`, or out of the body by
      completing it, returning or raising anything. */
  datatype Aim = ToRaise | ToLeave

  predicate Hits(s: Stmt, aim: Aim) {
    match aim
    case ToRaise => s.Raise? && IsHttp(s.exc)
    case ToLeave => s.Return? || s.Raise?
  }

  /** The configuration is at the aim and has not entered the pipeline. */
  predicate Clear(entering: set<string>, c: Config, aim: Aim) {
    !c.entered &&
    if c.work == [] then aim.ToLeave?
    else c.work[0].Do? && Hits(c.work[0].s, aim) && !Enters(OwnCalls(c.work[0].s), entering)
  }

  ghost predicate CanReach(body: seq<Stmt>, entering: set<string>, aim: Aim) {
    exists r :: IsRun(entering, r) && r[0] == Start(body) && Clear(entering, r[|r| - 1], aim)
  }

  // ---- the exact flow analysis ----

  /** What a statement can do without entering the pipeline: complete, leave the loop,
      start the next round, or hit the aim. */
  datatype Flow = Flow(falls: bool, breaks: bool, continues: bool, hits: bool)

  const NoFlow := Flow(false, false, false, false)

  function Then(f: Flow, g: Flow): Flow {
    Flow(f.falls && g.falls, f.breaks || (f.falls && g.breaks),
         f.continues || (f.falls && g.continues), f.hits || (f.falls && g.hits))
  }

  function FlowAll(ss: seq<Stmt>, entering: set<string>, aim: Aim): Flow
    decreases ss, 0
  {
    if ss == [] then Flow(true, false, false, false)
    else Then(FlowOf(ss[0], entering, aim), FlowAll(ss[1..], entering, aim))
  }

  function FlowOf(s: Stmt, entering: set<string>, aim: Aim): Flow
    decreases s, 1
  {
    if Enters(OwnCalls(s), entering) then NoFlow
    else
      match s
      case Eval(_, _) => Flow(true, false, false, false)
      case Return(_, _) => Flow(false, false, false, Hits(s, aim))
      case Raise(_, _) => Flow(false, false, false, Hits(s, aim))
      case Break(_) => Flow(false, true, false, false)
      case Continue(_) => Flow(false, false, true, false)
      case If(_, _, thn, els) =>
        var f := FlowAll(thn, entering, aim);
        var g := FlowAll(els, entering, aim);
        Flow(f.falls || g.falls, f.breaks || g.breaks, f.continues || g.continues, f.hits || g.hits)
      case Loop(_, _, body) => Flow(true, false, false, FlowAll(body, entering, aim).hits)
      case With(_, _, body) => FlowAll(body, entering, aim)
      case Def(_) => Flow(true, false, false, false)
  }

  /** The same question asked of the remaining work. With `rounds`, a loop in progress
      may go round again; without, it may only be left. */
  predicate May(work: seq<Item>, entering: set<string>, rounds: bool, aim: Aim)
    decreases |work|, 0
  {
    if work == [] then aim.ToLeave?
    else
      var rest := work[1..];
      match work[0]
      case Do(s) => After(FlowOf(s, entering, aim), rest, entering, rounds, aim)
      case Again(loop) =>
        (rounds && FlowOf(loop, entering, aim).hits) || (FlowOf(loop, entering, aim).falls && May(rest, entering, rounds, aim))
  }

  predicate After(f: Flow, rest: seq<Item>, entering: set<string>, rounds: bool, aim: Aim)
    decreases |rest|, 1
  {
    AfterBreakShorter(rest);
    || f.hits
    || (f.falls && May(rest, entering, rounds, aim))
    || (f.breaks && May(AfterBreak(rest), entering, rounds, aim))
    || (f.continues && May(AfterContinue(rest), entering, rounds, aim))
  }

  lemma AfterBreakShorter(work: seq<Item>)
    ensures |AfterBreak(work)| <= |work| && |AfterContinue(work)| <= |work|
  {}

  // ---- the analysis is sound: what an execution does, it foresees ----

  ghost predicate LoopsOnly(work: seq<Item>) {
    forall i :: 0 <= i < |work| && work[i].Again? ==> work[i].loop.Loop?
  }

  lemma SkipsKeepLoops(work: seq<Item>)
    requires LoopsOnly(work)
    ensures LoopsOnly(AfterBreak(work)) && LoopsOnly(AfterContinue(work))
  {
    if work != [] && !work[0].Again? { SkipsKeepLoops(work[1..]); }
  }

  lemma TodoCons(ss: seq<Stmt>, rest: seq<Item>)
    requires ss != []
    ensures Todo(ss) + rest == [Do(ss[0])] + (Todo(ss[1..]) + rest)
  {}

  lemma {:induction false} SkipTodo(ss: seq<Stmt>, rest: seq<Item>)
    ensures AfterBreak(Todo(ss) + rest) == AfterBreak(rest)
    ensures AfterContinue(Todo(ss) + rest) == AfterContinue(rest)
  {
    if ss == [] {
      assert Todo(ss) + rest == rest;
    } else {
      TodoCons(ss, rest);
      assert (Todo(ss) + rest)[1..] == Todo(ss[1..]) + rest;
      SkipTodo(ss[1..], rest);
    }
  }

  /** Running a block and then the rest: the block's flow decides what is left to ask. */
  lemma {:induction false} MayTodo(ss: seq<Stmt>, rest: seq<Item>, entering: set<string>, rounds: bool, aim: Aim)
    ensures May(Todo(ss) + rest, entering, rounds, aim) == After(FlowAll(ss, entering, aim), rest, entering, rounds, aim)
  {
    if ss == [] {
      assert Todo(ss) + rest == rest;
    } else {
      TodoCons(ss, rest);
      assert (Todo(ss) + rest)[1..] == Todo(ss[1..]) + rest;
      MayTodo(ss[1..], rest, entering, rounds, aim);
      SkipTodo(ss[1..], rest);
    }
  }

  /** The work of a loop going round once more. */
  lemma RoundWork(s: Stmt, rest: seq<Item>)
    requires s.Loop?
    ensures Todo(s.body) + [Again(s)] + rest == Todo(s.body) + ([Again(s)] + rest)
    ensures ([Again(s)] + rest)[0] == Again(s) && ([Again(s)] + rest)[1..] == rest
  {}

  /** A round of a loop foresees a raise only if its body does, or leaving the loop does. */
  lemma MayRound(s: Stmt, rest: seq<Item>, entering: set<string>, rounds: bool, aim: Aim)
    requires s.Loop? && !Enters(OwnCalls(s), entering)
    ensures var next := Todo(s.body) + [Again(s)] + rest;
      && (FlowAll(s.body, entering, aim).hits ==> May(next, entering, rounds, aim))
      && (May(next, entering, rounds, aim) ==> FlowAll(s.body, entering, aim).hits || May(rest, entering, rounds, aim))
  {
    RoundWork(s, rest);
    MayTodo(s.body, [Again(s)] + rest, entering, rounds, aim);
  }

  lemma StepForeseen(c: Config, c': Config, entering: set<string>, aim: Aim)
    requires Step(entering, c, c') && LoopsOnly(c.work)
    ensures LoopsOnly(c'.work)
    ensures !c'.entered && May(c'.work, entering, true, aim) ==> !c.entered && May(c.work, entering, true, aim)
  {
    var rest := c.work[1..];
    SkipsKeepLoops(rest);
    var s := if c.work[0].Do? then c.work[0].s else c.work[0].loop;
    match s
    case If(_, _, thn, els) =>
      MayTodo(thn, rest, entering, true, aim);
      MayTodo(els, rest, entering, true, aim);
    case Loop(_, _, body) =>
      if !Enters(OwnCalls(s), entering) { MayRound(s, rest, entering, true, aim); }
    case With(_, _, body) =>
      MayTodo(body, rest, entering, true, aim);
    case _ =>
  }

  lemma {:induction false} RunForeseen(r: seq<Config>, entering: set<string>, aim: Aim)
    requires IsRun(entering, r) && LoopsOnly(r[0].work)
    requires Clear(entering, r[|r| - 1], aim)
    ensures !r[0].entered && May(r[0].work, entering, true, aim)
  {
    if |r| > 1 {
      StepForeseen(r[0], r[1], entering, aim);
      var tail := r[1..];
      forall i | 0 <= i < |tail| - 1 ensures Step(entering, tail[i], tail[i + 1]) {
        assert tail[i] == r[i + 1] && tail[i + 1] == r[i + 2];
      }
      RunForeseen(tail, entering, aim);
    }
  }

  // ---- and exact: what it foresees, some execution does ----

  function Size(s: Stmt): nat
    decreases s, 1
  {
    match s
    case If(_, _, thn, els) => 1 + SizeAll(thn) + SizeAll(els)
    case Loop(_, _, body) => 2 + SizeAll(body)
    case With(_, _, body) => 1 + SizeAll(body)
    case _ => 1
  }

  function SizeAll(ss: seq<Stmt>): nat
    decreases ss, 0
  {
    if ss == [] then 0 else Size(ss[0]) + SizeAll(ss[1..])
  }

  function WorkSize(work: seq<Item>): nat {
    if work == [] then 0
    else (if work[0].Do? then Size(work[0].s) else 1) + WorkSize(work[1..])
  }

  lemma {:induction false} WorkSizeTodo(ss: seq<Stmt>, rest: seq<Item>)
    ensures WorkSize(Todo(ss) + rest) == SizeAll(ss) + WorkSize(rest)
  {
    if ss == [] {
      assert Todo(ss) + rest == rest;
    } else {
      TodoCons(ss, rest);
      assert (Todo(ss) + rest)[1..] == Todo(ss[1..]) + rest;
      WorkSizeTodo(ss[1..], rest);
    }
  }

  lemma WorkSizeSkips(work: seq<Item>)
    ensures WorkSize(AfterBreak(work)) <= WorkSize(work) && WorkSize(AfterContinue(work)) <= WorkSize(work)
  {}

  lemma Extend(entering: set<string>, c: Config, r: seq<Config>)
    requires IsRun(entering, r) && Step(entering, c, r[0])
    ensures IsRun(entering, [c] + r) && ([c] + r)[|[c] + r| - 1] == r[|r| - 1]
  {
    var q := [c] + r;
    forall i | 0 <= i < |q| - 1 ensures Step(entering, q[i], q[i + 1]) {
      if i > 0 { assert q[i] == r[i - 1] && q[i + 1] == r[i]; }
    }
  }

  ghost predicate Nearer(work: seq<Item>, next: seq<Item>, entering: set<string>, aim: Aim) {
    LoopsOnly(next) && May(next, entering, false, aim) && WorkSize(next) < WorkSize(work)
  }

  lemma LoopsJoin(ss: seq<Stmt>, rest: seq<Item>)
    requires LoopsOnly(rest)
    ensures LoopsOnly(Todo(ss) + rest)
  {
    var work := Todo(ss) + rest;
    forall i | 0 <= i < |work| && work[i].Again? ensures work[i].loop.Loop? {
      if i >= |ss| { assert work[i] == rest[i - |ss|]; }
    }
  }

  lemma WorkSizeFirst(item: Item, rest: seq<Item>)
    ensures WorkSize([item] + rest) == (if item.Do? then Size(item.s) else 1) + WorkSize(rest)
  {
    assert ([item] + rest)[1..] == rest;
  }

  /** Going into a block that may complete, or raise, brings the raise nearer. */
  lemma BlockNearer(work: seq<Item>, ss: seq<Stmt>, entering: set<string>, aim: Aim)
    requires work != [] && LoopsOnly(work) && work[0].Do? && SizeAll(ss) < Size(work[0].s)
    requires After(FlowAll(ss, entering, aim), work[1..], entering, false, aim)
    ensures Nearer(work, Todo(ss) + work[1..], entering, aim)
  {
    MayTodo(ss, work[1..], entering, false, aim);
    WorkSizeTodo(ss, work[1..]);
    LoopsJoin(ss, work[1..]);
  }

  /** So does going into a loop body that may raise. */
  lemma RoundNearer(work: seq<Item>, entering: set<string>, aim: Aim)
    requires work != [] && LoopsOnly(work) && work[0].Do? && work[0].s.Loop?
    requires !Enters(OwnCalls(work[0].s), entering) && FlowAll(work[0].s.body, entering, aim).hits
    ensures Nearer(work, Todo(work[0].s.body) + [Again(work[0].s)] + work[1..], entering, aim)
  {
    var s, rest := work[0].s, work[1..];
    var again := [Again(s)] + rest;
    RoundWork(s, rest);
    MayRound(s, rest, entering, false, aim);
    WorkSizeTodo(s.body, again);
    WorkSizeFirst(Again(s), rest);
    LoopsJoin(s.body, again);
  }

  /** The step towards the foreseen raise. */
  lemma TowardsAim(work: seq<Item>, entering: set<string>, aim: Aim) returns (next: seq<Item>)
    requires LoopsOnly(work) && May(work, entering, false, aim) && !Clear(entering, Config(work, false), aim)
    ensures Step(entering, Config(work, false), Config(next, false))
    ensures Nearer(work, next, entering, aim)
  {
    var rest := work[1..];
    SkipsKeepLoops(rest);
    WorkSizeSkips(rest);
    next := rest;
    if work[0].Do? {
      var s := work[0].s;
      match s
      case Break(_) => next := AfterBreak(rest);
      case Continue(_) => next := AfterContinue(rest);
      case If(_, _, thn, els) =>
        var ss := if After(FlowAll(thn, entering, aim), rest, entering, false, aim) then thn else els;
        BlockNearer(work, ss, entering, aim);
        next := Todo(ss) + rest;
      case Loop(_, _, body) =>
        if FlowAll(body, entering, aim).hits {
          RoundNearer(work, entering, aim);
          next := Todo(body) + [Again(s)] + rest;
        }
      case With(_, _, body) =>
        BlockNearer(work, body, entering, aim);
        next := Todo(body) + rest;
      case _ =>
    }
  }

  lemma {:induction false} RunTo(work: seq<Item>, entering: set<string>, aim: Aim) returns (r: seq<Config>)
    requires LoopsOnly(work) && May(work, entering, false, aim)
    ensures IsRun(entering, r) && r[0] == Config(work, false) && Clear(entering, r[|r| - 1], aim)
    decreases WorkSize(work)
  {
    var c := Config(work, false);
    if Clear(entering, c, aim) {
      r := [c];
    } else {
      var next := TowardsAim(work, entering, aim);
      var tail := RunTo(next, entering, aim);
      Extend(entering, c, tail);
      r := [c] + tail;
    }
  }

  /** The flow analysis decides what an execution can reach before any entering call. */
  lemma ReachExactly(body: seq<Stmt>, entering: set<string>, aim: Aim)
    ensures After(FlowAll(body, entering, aim), [], entering, false, aim) <==> CanReach(body, entering, aim)
  {
    assert Todo(body) + [] == Todo(body);
    MayTodo(body, [], entering, true, aim);
    MayTodo(body, [], entering, false, aim);
    if After(FlowAll(body, entering, aim), [], entering, false, aim) {
      var r := RunTo(Todo(body), entering, aim);
    }
    if r :| IsRun(entering, r) && r[0] == Start(body) && Clear(entering, r[|r| - 1], aim) {
      RunForeseen(r, entering, aim);
    }
  }

  /** It says "hits" exactly when some execution of the body reaches a `raise HTTPException`
      before any entering call. */
  lemma ExposureExactly(body: seq<Stmt>, entering: set<string>)
    ensures FlowAll(body, entering, ToRaise).hits <==> CanExpose(body, entering)
  {
    ReachExactly(body, entering, ToRaise);
    if r :| IsRun(entering, r) && r[0] == Start(body) && Exposed(entering, r[|r| - 1]) {
      assert Clear(entering, r[|r| - 1], ToRaise);
    }
    if r :| IsRun(entering, r) && r[0] == Start(body) && Clear(entering, r[|r| - 1], ToRaise) {
      assert Exposed(entering, r[|r| - 1]);
    }
  }

  /** An execution can leave the body without an entering call exactly when the body can
      complete or return or raise before one. */
  lemma LeavingExactly(body: seq<Stmt>, entering: set<string>)
    ensures FlowAll(body, entering, ToLeave) != NoFlow <==> CanReach(body, entering, ToLeave)
  {
    ReachExactly(body, entering, ToLeave);
  }
}
