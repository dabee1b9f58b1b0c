/** Which alarms are real: a flow analysis that decides, for any body and any line,
    whether some execution arrives there at a `raise HTTPException` too late to be exposed. */
module RouteArrivals {
  import opened RouteSyntax
  import opened RouteSemantics

  /** The configuration is about to execute the `raise HTTPException` at `line`. */
  predicate ArrivesAt(c: Config, line: nat) {
    AtHttpRaise(c) && c.work[0].s.line == line
  }

  /** ... and the pipeline is entered before it, or by its own arguments. */
  predicate ArrivesLate(c: Config, line: nat, entering: set<string>) {
    ArrivesAt(c, line) && !Exposed(entering, c)
  }

  /** Some execution of the body arrives late at `line`. */
  ghost predicate CanArriveLate(body: seq<Stmt>, line: nat, entering: set<string>) {
    exists r :: IsRun(entering, r) && r[0] == Start(body) && ArrivesLate(r[|r| - 1], line, entering)
  }

  // ---- the analysis ----

  /** What a statement can do when the pipeline is, or is not yet, entered: whether it is
      entered when the statement completes, leaves the loop or starts the next round, and
      whether the raise in question is reached late. */
  datatype Ways = Ways(falls: set<bool>, breaks: set<bool>, continues: set<bool>, late: bool)

  function FallsOnly(bit: bool): Ways {
    Ways({bit}, {}, {}, false)
  }

  function Either(f: Ways, g: Ways): Ways {
    Ways(f.falls + g.falls, f.breaks + g.breaks, f.continues + g.continues, f.late || g.late)
  }

  const NoWays := Ways({}, {}, {}, false)

  function WaysAll(ss: seq<Stmt>, bit: bool, line: nat, entering: set<string>): Ways
    decreases ss, 0
  {
    if ss == [] then FallsOnly(bit)
    else
      var f := WaysOf(ss[0], bit, line, entering);
      var g := if true in f.falls then WaysAll(ss[1..], true, line, entering) else NoWays;
      var h := if false in f.falls then WaysAll(ss[1..], false, line, entering) else NoWays;
      Either(f.(falls := {}), Either(g, h))
  }

  function WaysOf(s: Stmt, bit: bool, line: nat, entering: set<string>): Ways
    decreases s, 1
  {
    var now := bit || Enters(OwnCalls(s), entering);
    match s
    case Eval(_, _) => FallsOnly(now)
    case Return(_, _) => NoWays
    case Raise(at, exc) => NoWays.(late := at == line && IsHttp(exc) && now)
    case Break(_) => NoWays.(breaks := {now})
    case Continue(_) => NoWays.(continues := {now})
    case If(_, _, thn, els) => Either(WaysAll(thn, now, line, entering), WaysAll(els, now, line, entering))
    case Loop(_, _, body) =>
      var f := WaysAll(body, now, line, entering);
      var again := f.falls + f.continues;
      Ways({now} + f.breaks + again, {}, {}, f.late || (true in again && WaysAll(body, true, line, entering).late))
    case With(_, _, body) => WaysAll(body, now, line, entering)
    case Def(_) => FallsOnly(now)
  }

  /** The same question asked of the remaining work. */
  predicate May(work: seq<Item>, bit: bool, line: nat, entering: set<string>)
    decreases |work|
  {
    work != [] &&
    var s := if work[0].Do? then work[0].s else work[0].loop;
    var rest := work[1..];
    var f := WaysOf(s, bit, line, entering);
    AfterBreakShorter(rest);
    || f.late
    || (true in f.falls && May(rest, true, line, entering))
    || (false in f.falls && May(rest, false, line, entering))
    || (true in f.breaks && May(AfterBreak(rest), true, line, entering))
    || (false in f.breaks && May(AfterBreak(rest), false, line, entering))
    || (true in f.continues && May(AfterContinue(rest), true, line, entering))
    || (false in f.continues && May(AfterContinue(rest), false, line, entering))
  }

  predicate AnyMay(bits: set<bool>, work: seq<Item>, line: nat, entering: set<string>) {
    (true in bits && May(work, true, line, entering)) || (false in bits && May(work, false, line, entering))
  }

  predicate After(f: Ways, rest: seq<Item>, line: nat, entering: set<string>) {
    || f.late
    || AnyMay(f.falls, rest, line, entering)
    || AnyMay(f.breaks, AfterBreak(rest), line, entering)
    || AnyMay(f.continues, AfterContinue(rest), line, entering)
  }

  lemma MayFirst(item: Item, rest: seq<Item>, bit: bool, line: nat, entering: set<string>)
    ensures May([item] + rest, bit, line, entering) <==>
      After(WaysOf(if item.Do? then item.s else item.loop, bit, line, entering), rest, line, entering)
  {
    assert ([item] + rest)[1..] == rest;
  }

  // ---- the pipeline stays entered ----

  ghost predicate OnlyTrue(f: Ways) {
    false !in f.falls && false !in f.breaks && false !in f.continues
  }

  lemma TrueStays(ss: seq<Stmt>, line: nat, entering: set<string>)
    ensures OnlyTrue(WaysAll(ss, true, line, entering))
    decreases ss, 0
  {
    if ss != [] {
      TrueStaysIn(ss[0], line, entering);
      TrueStays(ss[1..], line, entering);
    }
  }

  lemma TrueStaysIn(s: Stmt, line: nat, entering: set<string>)
    ensures OnlyTrue(WaysOf(s, true, line, entering))
    decreases s, 1
  {
    match s
    case If(_, _, thn, els) => TrueStays(thn, line, entering); TrueStays(els, line, entering);
    case Loop(_, _, body) => TrueStays(body, line, entering);
    case With(_, _, body) => TrueStays(body, line, entering);
    case _ =>
  }

  // ---- what an execution does, the analysis foresees ----

  lemma AfterEither(f: Ways, g: Ways, rest: seq<Item>, line: nat, entering: set<string>)
    ensures After(Either(f, g), rest, line, entering) <==> After(f, rest, line, entering) || After(g, rest, line, entering)
  {}

  /** What follows a first statement, by the bits with which it completes. */
  lemma AfterCons(ss: seq<Stmt>, rest: seq<Item>, bit: bool, line: nat, entering: set<string>)
    requires ss != []
    ensures var f := WaysOf(ss[0], bit, line, entering);
      After(WaysAll(ss, bit, line, entering), rest, line, entering) <==>
        || After(f.(falls := {}), rest, line, entering)
        || (true in f.falls && After(WaysAll(ss[1..], true, line, entering), rest, line, entering))
        || (false in f.falls && After(WaysAll(ss[1..], false, line, entering), rest, line, entering))
  {
    var f := WaysOf(ss[0], bit, line, entering);
    var g := if true in f.falls then WaysAll(ss[1..], true, line, entering) else NoWays;
    var h := if false in f.falls then WaysAll(ss[1..], false, line, entering) else NoWays;
    assert WaysAll(ss, bit, line, entering) == Either(f.(falls := {}), Either(g, h));
    AfterEither(f.(falls := {}), Either(g, h), rest, line, entering);
    AfterEither(g, h, rest, line, entering);
    assert !After(NoWays, rest, line, entering);
  }

  lemma {:induction false} MayTodo(ss: seq<Stmt>, rest: seq<Item>, bit: bool, line: nat, entering: set<string>)
    ensures May(Todo(ss) + rest, bit, line, entering) <==> After(WaysAll(ss, bit, line, entering), rest, line, entering)
  {
    if ss == [] {
      assert Todo(ss) + rest == rest;
    } else {
      TodoCons(ss, rest);
      MayFirst(Do(ss[0]), Todo(ss[1..]) + rest, bit, line, entering);
      MayTodo(ss[1..], rest, true, line, entering);
      MayTodo(ss[1..], rest, false, line, entering);
      SkipTodo(ss[1..], rest);
      AfterCons(ss, rest, bit, line, entering);
    }
  }

  /** From the end of a round, whatever is foreseen was foreseen from the start of the loop. */
  lemma AgainMay(s: Stmt, rest: seq<Item>, bit: bool, x: bool, line: nat, entering: set<string>)
    requires s.Loop?
    requires var f := WaysAll(s.body, bit || Enters(OwnCalls(s), entering), line, entering); x in f.falls + f.continues
    requires After(WaysOf(s, x, line, entering), rest, line, entering)
    ensures After(WaysOf(s, bit, line, entering), rest, line, entering)
  {
    TrueStays(s.body, line, entering);
    if x != bit { TrueStaysIn(s, line, entering); }
  }

  /** Another round of a loop can do no more than the loop could from the start. */
  lemma RoundMay(s: Stmt, rest: seq<Item>, bit: bool, line: nat, entering: set<string>)
    requires s.Loop?
    requires May(Todo(s.body) + [Again(s)] + rest, bit || Enters(OwnCalls(s), entering), line, entering)
    ensures After(WaysOf(s, bit, line, entering), rest, line, entering)
  {
    var now := bit || Enters(OwnCalls(s), entering);
    var f := WaysAll(s.body, now, line, entering);
    var again := [Again(s)] + rest;
    RoundWork(s, rest);
    assert AfterBreak(again) == rest && AfterContinue(again) == again;
    MayTodo(s.body, again, now, line, entering);
    if !f.late && !AnyMay(f.breaks, rest, line, entering) {
      var x :| x in f.falls + f.continues && May(again, x, line, entering);
      MayFirst(Again(s), rest, x, line, entering);
      AgainMay(s, rest, bit, x, line, entering);
    }
  }

  lemma StepForeseen(c: Config, c': Config, line: nat, entering: set<string>)
    requires Step(entering, c, c') && LoopsOnly(c.work)
    ensures LoopsOnly(c'.work)
    ensures May(c'.work, c'.entered, line, entering) ==> May(c.work, c.entered, line, entering)
  {
    var item, rest := c.work[0], c.work[1..];
    assert c.work == [item] + rest;
    RouteSemantics.StepForeseen(c, c', entering, ToRaise);
    MayFirst(item, rest, c.entered, line, entering);
    if May(c'.work, c'.entered, line, entering) {
      NextMay(if item.Do? then item.s else item.loop, rest, c, c', line, entering);
    }
  }

  lemma NextMay(s: Stmt, rest: seq<Item>, c: Config, c': Config, line: nat, entering: set<string>)
    requires Step(entering, c, c') && c.work[1..] == rest
    requires s == if c.work[0].Do? then c.work[0].s else c.work[0].loop
    requires May(c'.work, c'.entered, line, entering)
    ensures After(WaysOf(s, c.entered, line, entering), rest, line, entering)
  {
    var now := c'.entered;
    match s
    case If(_, _, thn, els) =>
      MayTodo(thn, rest, now, line, entering);
      MayTodo(els, rest, now, line, entering);
      AfterEither(WaysAll(thn, now, line, entering), WaysAll(els, now, line, entering), rest, line, entering);
    case Loop(_, _, body) =>
      if c'.work != rest { RoundMay(s, rest, c.entered, line, entering); }
    case With(_, _, body) =>
      MayTodo(body, rest, now, line, entering);
    case _ =>
  }

  lemma {:induction false} RunForeseen(r: seq<Config>, line: nat, entering: set<string>)
    requires IsRun(entering, r) && LoopsOnly(r[0].work)
    requires ArrivesLate(r[|r| - 1], line, entering)
    ensures May(r[0].work, r[0].entered, line, entering)
  {
    if |r| > 1 {
      StepForeseen(r[0], r[1], line, entering);
      var tail := r[1..];
      forall i | 0 <= i < |tail| - 1 ensures Step(entering, tail[i], tail[i + 1]) {
        assert tail[i] == r[i + 1] && tail[i + 1] == r[i + 2];
      }
      RunForeseen(tail, line, entering);
    }
  }

  // ---- what the analysis foresees, some execution does ----

  ghost predicate Leads(entering: set<string>, c: Config, d: Config) {
    exists r :: RunBetween(entering, r, c, d)
  }

  ghost predicate RunBetween(entering: set<string>, r: seq<Config>, c: Config, d: Config) {
    IsRun(entering, r) && r[0] == c && r[|r| - 1] == d
  }

  lemma LeadsSelf(entering: set<string>, c: Config)
    ensures Leads(entering, c, c)
  {
    assert RunBetween(entering, [c], c, c);
  }

  lemma StepLeads(entering: set<string>, c: Config, c': Config, d: Config)
    requires Step(entering, c, c') && Leads(entering, c', d)
    ensures Leads(entering, c, d)
  {
    var r :| RunBetween(entering, r, c', d);
    Extend(entering, c, r);
    assert RunBetween(entering, [c] + r, c, d);
  }

  lemma {:induction false} RunLeads(entering: set<string>, r: seq<Config>, c: Config, d: Config, e: Config)
    requires RunBetween(entering, r, c, d) && Leads(entering, d, e)
    ensures Leads(entering, c, e)
    decreases |r|
  {
    if |r| > 1 {
      var tail := r[1..];
      forall i | 0 <= i < |tail| - 1 ensures Step(entering, tail[i], tail[i + 1]) {
        assert tail[i] == r[i + 1] && tail[i + 1] == r[i + 2];
      }
      RunLeads(entering, tail, r[1], d, e);
      assert Step(entering, r[0], r[1]);
      StepLeads(entering, c, r[1], e);
    }
  }

  lemma LeadsOn(entering: set<string>, c: Config, d: Config, e: Config)
    requires Leads(entering, c, d) && Leads(entering, d, e)
    ensures Leads(entering, c, e)
  {
    var r :| RunBetween(entering, r, c, d);
    RunLeads(entering, r, c, d, e);
  }

  /** The configuration can run on to a late arrival. */
  ghost predicate LeadsLate(c: Config, line: nat, entering: set<string>) {
    exists d :: Leads(entering, c, d) && ArrivesLate(d, line, entering)
  }

  lemma LateOn(c: Config, d: Config, line: nat, entering: set<string>)
    requires Leads(entering, c, d) && LeadsLate(d, line, entering)
    ensures LeadsLate(c, line, entering)
  {
    var e :| Leads(entering, d, e) && ArrivesLate(e, line, entering);
    LeadsOn(entering, c, d, e);
  }

  /** From `c` all that the ways promise can be done, with `rest` still to do. */
  ghost predicate Delivers(c: Config, f: Ways, rest: seq<Item>, line: nat, entering: set<string>) {
    && (forall x :: x in f.falls ==> Leads(entering, c, Config(rest, x)))
    && (forall x :: x in f.breaks ==> Leads(entering, c, Config(AfterBreak(rest), x)))
    && (forall x :: x in f.continues ==> Leads(entering, c, Config(AfterContinue(rest), x)))
    && (f.late ==> LeadsLate(c, line, entering))
  }

  lemma StepDelivers(c: Config, c': Config, f: Ways, rest: seq<Item>, line: nat, entering: set<string>)
    requires Step(entering, c, c') && Delivers(c', f, rest, line, entering)
    ensures Delivers(c, f, rest, line, entering)
  {
    LeadsSelf(entering, c');
    StepLeads(entering, c, c', c');
    LeadsDelivers(c, c', f, rest, line, entering);
  }

  lemma LeadsDelivers(c: Config, d: Config, f: Ways, rest: seq<Item>, line: nat, entering: set<string>)
    requires Leads(entering, c, d) && Delivers(d, f, rest, line, entering)
    ensures Delivers(c, f, rest, line, entering)
  {
    forall x | x in f.falls ensures Leads(entering, c, Config(rest, x)) { LeadsOn(entering, c, d, Config(rest, x)); }
    forall x | x in f.breaks ensures Leads(entering, c, Config(AfterBreak(rest), x)) {
      LeadsOn(entering, c, d, Config(AfterBreak(rest), x));
    }
    forall x | x in f.continues ensures Leads(entering, c, Config(AfterContinue(rest), x)) {
      LeadsOn(entering, c, d, Config(AfterContinue(rest), x));
    }
    if f.late { LateOn(c, d, line, entering); }
  }

  lemma BlockDelivers(ss: seq<Stmt>, rest: seq<Item>, bit: bool, line: nat, entering: set<string>)
    ensures Delivers(Config(Todo(ss) + rest, bit), WaysAll(ss, bit, line, entering), rest, line, entering)
    decreases ss, 0
  {
    var c := Config(Todo(ss) + rest, bit);
    if ss == [] {
      assert Todo(ss) + rest == rest;
      LeadsSelf(entering, c);
    } else {
      var tail := Todo(ss[1..]) + rest;
      var f := WaysOf(ss[0], bit, line, entering);
      TodoCons(ss, rest);
      SkipTodo(ss[1..], rest);
      StmtDelivers(ss[0], tail, bit, line, entering);
      forall x | x in f.falls ensures Delivers(c, WaysAll(ss[1..], x, line, entering), rest, line, entering) {
        BlockDelivers(ss[1..], rest, x, line, entering);
        LeadsDelivers(c, Config(tail, x), WaysAll(ss[1..], x, line, entering), rest, line, entering);
      }
    }
  }

  lemma StmtDelivers(s: Stmt, rest: seq<Item>, bit: bool, line: nat, entering: set<string>)
    ensures Delivers(Config([Do(s)] + rest, bit), WaysOf(s, bit, line, entering), rest, line, entering)
    decreases s, 1
  {
    var c := Config([Do(s)] + rest, bit);
    var now := bit || Enters(OwnCalls(s), entering);
    assert c.work[1..] == rest;
    match s
    case If(_, _, thn, els) =>
      BlockDelivers(thn, rest, now, line, entering);
      BlockDelivers(els, rest, now, line, entering);
      StepDelivers(c, Config(Todo(thn) + rest, now), WaysAll(thn, now, line, entering), rest, line, entering);
      StepDelivers(c, Config(Todo(els) + rest, now), WaysAll(els, now, line, entering), rest, line, entering);
    case With(_, _, body) =>
      BlockDelivers(body, rest, now, line, entering);
      StepDelivers(c, Config(Todo(body) + rest, now), WaysAll(body, now, line, entering), rest, line, entering);
    case Loop(_, _, body) =>
      BlockDelivers(body, [Again(s)] + rest, now, line, entering);
      BlockDelivers(body, [Again(s)] + rest, true, line, entering);
      LoopDelivers(c, s, rest, line, entering);
    case Raise(_, _) =>
      LeadsSelf(entering, c);
    case _ =>
      SimpleDelivers(c, s, rest, line, entering);
  }

  /** Statements that complete, leave or go round in a single step. */
  lemma SimpleDelivers(c: Config, s: Stmt, rest: seq<Item>, line: nat, entering: set<string>)
    requires s.Eval? || s.Return? || s.Break? || s.Continue? || s.Def?
    requires c.work == [Do(s)] + rest
    ensures Delivers(c, WaysOf(s, c.entered, line, entering), rest, line, entering)
  {
    var now := c.entered || Enters(OwnCalls(s), entering);
    var next := if s.Break? then AfterBreak(rest) else if s.Continue? then AfterContinue(rest) else rest;
    assert c.work[1..] == rest;
    if !s.Return? {
      LeadsSelf(entering, Config(next, now));
      StepLeads(entering, c, Config(next, now), Config(next, now));
    }
  }

  lemma LoopDelivers(c: Config, s: Stmt, rest: seq<Item>, line: nat, entering: set<string>)
    requires s.Loop? && c.work == [Do(s)] + rest
    requires var now := c.entered || Enters(OwnCalls(s), entering);
      forall x :: x in {now, true} ==>
        Delivers(Config(Todo(s.body) + ([Again(s)] + rest), x), WaysAll(s.body, x, line, entering), [Again(s)] + rest, line, entering)
    ensures Delivers(c, WaysOf(s, c.entered, line, entering), rest, line, entering)
  {
    var now := c.entered || Enters(OwnCalls(s), entering);
    var again := [Again(s)] + rest;
    var f := WaysAll(s.body, now, line, entering);
    var round := Config(Todo(s.body) + again, now);
    RoundWork(s, rest);
    assert c.work[1..] == rest && AfterBreak(again) == rest && AfterContinue(again) == again;
    LeadsSelf(entering, Config(rest, now));
    StepLeads(entering, c, Config(rest, now), Config(rest, now));
    StepDelivers(c, round, f, again, line, entering);
    forall x | x in f.falls + f.continues ensures Leads(entering, c, Config(rest, x)) {
      ExitLeads(c, s, rest, x, line, entering);
    }
    if true in f.falls + f.continues && WaysAll(s.body, true, line, entering).late {
      var next := Config(Todo(s.body) + again, true);
      LeadsSelf(entering, next);
      StepLeads(entering, Config(again, true), next, next);
      LeadsOn(entering, c, Config(again, true), next);
      LateOn(c, next, line, entering);
    }
  }

  /** After a round the loop can be left. */
  lemma ExitLeads(c: Config, s: Stmt, rest: seq<Item>, x: bool, line: nat, entering: set<string>)
    requires s.Loop? && Leads(entering, c, Config([Again(s)] + rest, x))
    requires var f := WaysAll(s.body, c.entered || Enters(OwnCalls(s), entering), line, entering); x in f.falls + f.continues
    ensures Leads(entering, c, Config(rest, x))
  {
    var again := [Again(s)] + rest;
    assert again[1..] == rest;
    TrueStays(s.body, line, entering);
    LeadsSelf(entering, Config(rest, x));
    StepLeads(entering, Config(again, x), Config(rest, x), Config(rest, x));
    LeadsOn(entering, c, Config(again, x), Config(rest, x));
  }

  // ---- exactness ----

  /** The analysis decides lateness: it says so exactly when some execution of the body
      arrives at the raise after the pipeline was entered, or enters it by its arguments. */
  lemma LatenessExactly(body: seq<Stmt>, line: nat, entering: set<string>)
    ensures WaysAll(body, false, line, entering).late <==> CanArriveLate(body, line, entering)
  {
    if WaysAll(body, false, line, entering).late { LateArrives(body, line, entering); }
    if r :| IsRun(entering, r) && r[0] == Start(body) && ArrivesLate(r[|r| - 1], line, entering) {
      ArrivalForeseen(body, line, entering, r);
    }
  }

  lemma LateArrives(body: seq<Stmt>, line: nat, entering: set<string>)
    requires WaysAll(body, false, line, entering).late
    ensures CanArriveLate(body, line, entering)
  {
    assert Todo(body) + [] == Todo(body);
    BlockDelivers(body, [], false, line, entering);
    var d :| Leads(entering, Start(body), d) && ArrivesLate(d, line, entering);
    var r :| RunBetween(entering, r, Start(body), d);
  }

  lemma ArrivalForeseen(body: seq<Stmt>, line: nat, entering: set<string>, r: seq<Config>)
    requires IsRun(entering, r) && r[0] == Start(body) && ArrivesLate(r[|r| - 1], line, entering)
    ensures WaysAll(body, false, line, entering).late
  {
    assert Todo(body) + [] == Todo(body);
    RunForeseen(r, line, entering);
    MayTodo(body, [], false, line, entering);
  }

  /** Every execution that arrives at the raise is exposed there. */
  ghost predicate AlwaysExposed(body: seq<Stmt>, line: nat, entering: set<string>) {
    forall r :: IsRun(entering, r) && r[0] == Start(body) && ArrivesAt(r[|r| - 1], line) ==> Exposed(entering, r[|r| - 1])
  }

  /** An alarm at a line is real on every execution exactly when the analysis finds no late
      arrival there. */
  lemma AlarmRealExactly(body: seq<Stmt>, line: nat, entering: set<string>)
    ensures AlwaysExposed(body, line, entering) <==> !WaysAll(body, false, line, entering).late
  {
    LatenessExactly(body, line, entering);
    if !AlwaysExposed(body, line, entering) {
      var r :| IsRun(entering, r) && r[0] == Start(body) && ArrivesAt(r[|r| - 1], line) && !Exposed(entering, r[|r| - 1]);
      assert ArrivesLate(r[|r| - 1], line, entering);
    }
  }
}
