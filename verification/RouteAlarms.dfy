/** Alarms of the contract check: outside loops that also enter the pipeline, and as far
    as nested functions' headers do not enter it, every execution that arrives at a
    reported raise arrives there exposed. */
module RouteAlarms {
  import opened RouteSyntax
  import opened RouteSemantics
  import opened RouteArrivals
  import opened RouteChecker
  import opened RouteVerdict

  /** No loop holds both the raise at `line` and an entering call, and no decorator or
      default value of a nested function makes an entering call. */
  ghost predicate Clear(ss: seq<Stmt>, line: nat, entering: set<string>)
    decreases ss, 0
  {
    ss == [] || (ClearIn(ss[0], line, entering) && Clear(ss[1..], line, entering))
  }

  ghost predicate ClearIn(s: Stmt, line: nat, entering: set<string>)
    decreases s, 1
  {
    match s
    case If(_, _, thn, els) => Clear(thn, line, entering) && Clear(els, line, entering)
    case Loop(_, _, body) =>
      (line in RaisesIn(s) ==> EntriesIn(s, entering) == []) && Clear(body, line, entering)
    case With(_, _, body) => Clear(body, line, entering)
    case Def(fn) => !Enters(HeaderCalls(fn), entering)
    case _ => true
  }

  function StmtOf(item: Item): Stmt {
    if item.Do? then item.s else item.loop
  }

  ghost predicate Proper(s: Stmt, line: nat, entering: set<string>) {
    OrderedIn(s) && ClearIn(s, line, entering) && forall e :: e in EntriesIn(s, entering) ==> line < e
  }

  /** `y` comes later than `x`: on later lines, or as the next round of a loop around `x`. */
  ghost predicate Later(x: Item, y: Item, entering: set<string>) {
    if y.Do? then Before(LinesIn(StmtOf(x)), LinesIn(y.s))
    else forall e :: e in EntriesIn(StmtOf(x), entering) ==> e in EntriesIn(y.loop, entering)
  }

  ghost predicate Inv(c: Config, line: nat, entering: set<string>) {
    && (forall i :: 0 <= i < |c.work| ==> Proper(StmtOf(c.work[i]), line, entering))
    && (forall i :: 0 <= i < |c.work| && c.work[i].Again? ==> c.work[i].loop.Loop?)
    && (forall i, j :: 0 <= i < j < |c.work| ==> Later(c.work[i], c.work[j], entering))
    && (c.entered ==> forall i :: 0 <= i < |c.work| ==> line !in RaisesIn(StmtOf(c.work[i])))
  }

  // ---- what a block hands down to its statements ----

  ghost predicate PartOf(x: Stmt, ss: seq<Stmt>, entering: set<string>) {
    && (forall l :: l in LinesIn(x) ==> l in Lines(ss))
    && (forall l :: l in RaisesIn(x) ==> l in RaiseLines(ss))
    && (forall l :: l in EntriesIn(x, entering) ==> l in EntryLines(ss, entering))
  }

  lemma {:induction false} BlockParts(ss: seq<Stmt>, line: nat, entering: set<string>)
    requires Ordered(ss) && Clear(ss, line, entering)
    ensures forall i :: 0 <= i < |ss| ==> OrderedIn(ss[i]) && ClearIn(ss[i], line, entering) && PartOf(ss[i], ss, entering)
    ensures forall i, j :: 0 <= i < j < |ss| ==> Before(LinesIn(ss[i]), LinesIn(ss[j]))
  {
    if ss != [] {
      BlockParts(ss[1..], line, entering);
      forall i | 0 <= i < |ss|
        ensures OrderedIn(ss[i]) && ClearIn(ss[i], line, entering) && PartOf(ss[i], ss, entering)
      {
        if i > 0 { assert ss[i] == ss[1..][i - 1]; }
      }
      forall i, j | 0 <= i < j < |ss| ensures Before(LinesIn(ss[i]), LinesIn(ss[j])) {
        assert ss[j] == ss[1..][j - 1];
        if i > 0 { assert ss[i] == ss[1..][i - 1]; }
      }
    }
  }

  lemma SkipsAreSuffixes(work: seq<Item>) returns (i: nat, j: nat)
    ensures i <= |work| && AfterBreak(work) == work[i..]
    ensures j <= |work| && AfterContinue(work) == work[j..]
  {
    if work == [] {
      i, j := 0, 0;
    } else if work[0].Again? {
      i, j := 1, 0;
    } else {
      i, j := SkipsAreSuffixes(work[1..]);
      i, j := i + 1, j + 1;
    }
  }

  lemma SuffixKeeps(c: Config, i: nat, entered: bool, line: nat, entering: set<string>)
    requires Inv(c, line, entering) && i <= |c.work|
    requires entered ==> forall k :: i <= k < |c.work| ==> line !in RaisesIn(StmtOf(c.work[k]))
    ensures Inv(Config(c.work[i..], entered), line, entering)
  {}

  /** Once the head has entered, the raise at `line` is nowhere in what follows. */
  lemma EntryBlocks(c: Config, line: nat, entering: set<string>)
    requires c.work != [] && Inv(c, line, entering)
    requires c.entered || Enters(OwnCalls(StmtOf(c.work[0])), entering)
    ensures forall k :: 1 <= k < |c.work| ==> line !in RaisesIn(StmtOf(c.work[k]))
    ensures StmtOf(c.work[0]).Loop? ==> line !in RaisesIn(StmtOf(c.work[0]))
  {
    var s := StmtOf(c.work[0]);
    if !c.entered {
      assert s.line in EntriesIn(s, entering);
      assert s.line in LinesIn(s);
      forall k | 1 <= k < |c.work| ensures line !in RaisesIn(StmtOf(c.work[k])) {
        assert Later(c.work[0], c.work[k], entering);
        RaisesInHaveLines(StmtOf(c.work[k]));
      }
    }
  }

  /** What follows a block comes later than every statement of the block. */
  ghost predicate AllLater(ss: seq<Stmt>, rest: seq<Item>, entering: set<string>) {
    forall j :: 0 <= j < |rest| ==>
      if rest[j].Do? then Before(Lines(ss), LinesIn(rest[j].s))
      else forall e :: e in EntryLines(ss, entering) ==> e in EntriesIn(rest[j].loop, entering)
  }

  lemma BlockLater(ss: seq<Stmt>, rest: seq<Item>, line: nat, entering: set<string>)
    requires Ordered(ss) && Clear(ss, line, entering) && AllLater(ss, rest, entering)
    requires forall i, j :: 0 <= i < j < |rest| ==> Later(rest[i], rest[j], entering)
    ensures var work := Todo(ss) + rest; forall i, j :: 0 <= i < j < |work| ==> Later(work[i], work[j], entering)
  {
    BlockParts(ss, line, entering);
    var work := Todo(ss) + rest;
    forall i, j | 0 <= i < j < |work| ensures Later(work[i], work[j], entering) {
      if j < |ss| {
        assert Before(LinesIn(ss[i]), LinesIn(ss[j]));
      } else if i < |ss| {
        PartLater(ss[i], ss, rest[j - |ss|], entering);
      } else {
        assert Later(rest[i - |ss|], rest[j - |ss|], entering);
      }
    }
  }

  /** Replacing the head by the statements of a block inside it. */
  lemma EnterBlock(ss: seq<Stmt>, rest: seq<Item>, entered: bool, line: nat, entering: set<string>)
    requires Inv(Config(rest, entered), line, entering)
    requires Ordered(ss) && Clear(ss, line, entering) && AllLater(ss, rest, entering)
    requires forall e :: e in EntryLines(ss, entering) ==> line < e
    requires entered ==> line !in RaiseLines(ss)
    ensures Inv(Config(Todo(ss) + rest, entered), line, entering)
  {
    BlockLater(ss, rest, line, entering);
    var work := Todo(ss) + rest;
    forall i: nat | i < |work|
      ensures Proper(StmtOf(work[i]), line, entering)
      ensures work[i].Again? ==> work[i].loop.Loop?
      ensures entered ==> line !in RaisesIn(StmtOf(work[i]))
    {
      if i < |ss| { BlockItem(ss, i, line, entering); } else { assert work[i] == rest[i - |ss|]; }
    }
  }

  lemma BlockItem(ss: seq<Stmt>, i: nat, line: nat, entering: set<string>)
    requires i < |ss| && Ordered(ss) && Clear(ss, line, entering)
    requires forall e :: e in EntryLines(ss, entering) ==> line < e
    ensures Proper(ss[i], line, entering) && (line !in RaiseLines(ss) ==> line !in RaisesIn(ss[i]))
  {
    BlockParts(ss, line, entering);
    assert PartOf(ss[i], ss, entering);
  }

  lemma PartLater(x: Stmt, ss: seq<Stmt>, y: Item, entering: set<string>)
    requires PartOf(x, ss, entering)
    requires if y.Do? then Before(Lines(ss), LinesIn(y.s))
             else forall e :: e in EntryLines(ss, entering) ==> e in EntriesIn(y.loop, entering)
    ensures Later(Do(x), y, entering)
  {}

  lemma StepKeeps(c: Config, c': Config, line: nat, entering: set<string>)
    requires Inv(c, line, entering) && Step(entering, c, c')
    ensures Inv(c', line, entering)
  {
    var s := StmtOf(c.work[0]);
    var rest := c.work[1..];
    var entered := c.entered || Enters(OwnCalls(s), entering);
    if entered { EntryBlocks(c, line, entering); }
    SuffixKeeps(c, 1, entered, line, entering);
    match s
    case Break(_) =>
      var i, _ := SkipsAreSuffixes(rest);
      SuffixKeeps(Config(rest, entered), i, entered, line, entering);
    case Continue(_) =>
      var _, j := SkipsAreSuffixes(rest);
      SuffixKeeps(Config(rest, entered), j, entered, line, entering);
    case If(_, _, thn, els) =>
      BranchKeeps(c, if c'.work == Todo(thn) + rest then thn else els, entered, line, entering);
    case With(_, _, body) =>
      BranchKeeps(c, body, entered, line, entering);
    case Loop(_, _, body) =>
      if c'.work != rest {
        RoundKeeps(c, entered, line, entering);
      }
    case _ =>
  }

  /** Going into a branch of an `if`, or into the body of a `with`. */
  lemma BranchKeeps(c: Config, ss: seq<Stmt>, entered: bool, line: nat, entering: set<string>)
    requires c.work != [] && Inv(c, line, entering)
    requires Inv(Config(c.work[1..], entered), line, entering)
    requires var s := StmtOf(c.work[0]);
      && entered == (c.entered || Enters(OwnCalls(s), entering))
      && ((s.If? && (ss == s.thn || ss == s.els)) || (s.With? && ss == s.body))
    ensures Inv(Config(Todo(ss) + c.work[1..], entered), line, entering)
  {
    var s := StmtOf(c.work[0]);
    var rest := c.work[1..];
    EntryShadows(s, entered, c.entered, line, entering);
    assert Proper(s, line, entering);
    forall e | e in EntryLines(ss, entering) ensures e in EntriesIn(s, entering) {}
    forall j | 0 <= j < |rest|
      ensures if rest[j].Do? then Before(Lines(ss), LinesIn(rest[j].s))
              else forall e :: e in EntryLines(ss, entering) ==> e in EntriesIn(rest[j].loop, entering)
    {
      assert Later(c.work[0], c.work[j + 1], entering);
    }
    EnterBlock(ss, rest, entered, line, entering);
  }

  lemma AgainKeeps(c: Config, entered: bool, line: nat, entering: set<string>)
    requires c.work != [] && Inv(c, line, entering) && StmtOf(c.work[0]).Loop?
    requires Inv(Config(c.work[1..], entered), line, entering)
    requires entered ==> line !in RaisesIn(StmtOf(c.work[0]))
    ensures Inv(Config([Again(StmtOf(c.work[0]))] + c.work[1..], entered), line, entering)
  {
    var again := [Again(StmtOf(c.work[0]))] + c.work[1..];
    assert forall i :: 0 <= i < |again| ==> StmtOf(again[i]) == StmtOf(c.work[i]);
    forall i, j | 0 <= i < j < |again| ensures Later(again[i], again[j], entering) {
      assert Later(c.work[i], c.work[j], entering) && again[j] == c.work[j];
    }
  }

  /** Going round a loop once more. */
  lemma RoundKeeps(c: Config, entered: bool, line: nat, entering: set<string>)
    requires c.work != [] && Inv(c, line, entering) && StmtOf(c.work[0]).Loop?
    requires Inv(Config(c.work[1..], entered), line, entering)
    requires entered ==> line !in RaisesIn(StmtOf(c.work[0]))
    ensures var s := StmtOf(c.work[0]); Inv(Config(Todo(s.body) + [Again(s)] + c.work[1..], entered), line, entering)
  {
    var s := StmtOf(c.work[0]);
    var again := [Again(s)] + c.work[1..];
    AgainKeeps(c, entered, line, entering);
    assert Proper(s, line, entering);
    forall e | e in EntryLines(s.body, entering) ensures e in EntriesIn(s, entering) {}
    forall j | 0 <= j < |again|
      ensures if again[j].Do? then Before(Lines(s.body), LinesIn(again[j].s))
              else forall e :: e in EntryLines(s.body, entering) ==> e in EntriesIn(again[j].loop, entering)
    {
      if j > 0 { assert Later(c.work[0], c.work[j], entering) && again[j] == c.work[j]; }
    }
    EnterBlock(s.body, again, entered, line, entering);
    assert Todo(s.body) + [Again(s)] + c.work[1..] == Todo(s.body) + again;
  }

  /** A branch or `with` whose own calls enter lies after its entry line. */
  lemma EntryShadows(s: Stmt, entered: bool, before: bool, line: nat, entering: set<string>)
    requires (s.If? || s.With?) && Proper(s, line, entering)
    requires entered == (before || Enters(OwnCalls(s), entering))
    requires before ==> line !in RaisesIn(s)
    ensures entered ==> line !in RaisesIn(s)
  {
    if entered && !before {
      assert s.line in EntriesIn(s, entering);
      match s {
        case If(l, _, thn, els) =>
          RaisesHaveLines(thn);
          RaisesHaveLines(els);
        case With(l, _, body) =>
          RaisesHaveLines(body);
      }
    }
  }

  lemma {:induction false} RunKeeps(r: seq<Config>, line: nat, entering: set<string>)
    requires IsRun(entering, r) && Inv(r[0], line, entering)
    ensures Inv(r[|r| - 1], line, entering)
  {
    if |r| > 1 {
      var front := r[..|r| - 1];
      RunKeeps(front, line, entering);
      StepKeeps(front[|front| - 1], r[|r| - 1], line, entering);
    }
  }

  /** No false alarm: an execution that arrives at a reported raise has made no
      entering call of the body, not even in the raise's own arguments. */
  lemma AlarmReal(fn: Func, entering: set<string>, line: nat)
    requires Ordered(fn.body) && Clear(fn.body, line, entering)
    requires Reported(fn, entering, line)
    ensures AlwaysExposed(fn.body, line, entering)
  {
    assert Todo(fn.body) + [] == Todo(fn.body);
    forall e | e in EntryLines(fn.body, entering) ensures line < e {
      assert e in RouteEntries(fn, entering);
    }
    EnterBlock(fn.body, [], false, line, entering);
    forall r | IsRun(entering, r) && r[0] == Start(fn.body) && ArrivesAt(r[|r| - 1], line)
      ensures Exposed(entering, r[|r| - 1])
    {
      RunKeeps(r, line, entering);
      ArrivedExposed(r[|r| - 1], line, entering);
    }
  }

  lemma ArrivedExposed(c: Config, line: nat, entering: set<string>)
    requires Inv(c, line, entering) && ArrivesAt(c, line)
    ensures Exposed(entering, c)
  {
    var s := c.work[0].s;
    assert Proper(s, line, entering);
    assert line in RaisesIn(s);
    assert Enters(OwnCalls(s), entering) ==> line in EntriesIn(s, entering);
  }

  // ---- bodies without loops ----

  predicate LoopFree(ss: seq<Stmt>)
    decreases ss, 0
  {
    ss == [] || (LoopFreeIn(ss[0]) && LoopFree(ss[1..]))
  }

  predicate LoopFreeIn(s: Stmt)
    decreases s, 1
  {
    match s
    case If(_, _, thn, els) => LoopFree(thn) && LoopFree(els)
    case Loop(_, _, _) => false
    case With(_, _, body) => LoopFree(body)
    case _ => true
  }

  /** No nested function's decorators or default values enter the pipeline. */
  predicate QuietDefs(ss: seq<Stmt>, entering: set<string>)
    decreases ss, 0
  {
    ss == [] || (QuietDefsIn(ss[0], entering) && QuietDefs(ss[1..], entering))
  }

  predicate QuietDefsIn(s: Stmt, entering: set<string>)
    decreases s, 1
  {
    match s
    case If(_, _, thn, els) => QuietDefs(thn, entering) && QuietDefs(els, entering)
    case Loop(_, _, body) => QuietDefs(body, entering)
    case With(_, _, body) => QuietDefs(body, entering)
    case Def(fn) => !Enters(HeaderCalls(fn), entering)
    case _ => true
  }

  lemma LoopFreeClear(ss: seq<Stmt>, line: nat, entering: set<string>)
    requires LoopFree(ss) && QuietDefs(ss, entering)
    ensures Clear(ss, line, entering)
    decreases ss, 0
  {
    if ss != [] {
      LoopFreeClearIn(ss[0], line, entering);
      LoopFreeClear(ss[1..], line, entering);
    }
  }

  lemma LoopFreeClearIn(s: Stmt, line: nat, entering: set<string>)
    requires LoopFreeIn(s) && QuietDefsIn(s, entering)
    ensures ClearIn(s, line, entering)
    decreases s, 1
  {
    match s
    case If(_, _, thn, els) => LoopFreeClear(thn, line, entering); LoopFreeClear(els, line, entering);
    case With(_, _, body) => LoopFreeClear(body, line, entering);
    case _ =>
  }

  /** Without loops an alarm is real on every execution exactly when the analysis finds no
      late arrival, and only a nested function's decorators or defaults can make one. */
  lemma LoopFreeAlarmsExactly(fn: Func, entering: set<string>, line: nat)
    requires Ordered(fn.body) && LoopFree(fn.body) && Reported(fn, entering, line)
    ensures AlwaysExposed(fn.body, line, entering) <==> !WaysAll(fn.body, false, line, entering).late
    ensures QuietDefs(fn.body, entering) ==> AlwaysExposed(fn.body, line, entering)
  {
    AlarmRealExactly(fn.body, line, entering);
    if QuietDefs(fn.body, entering) {
      LoopFreeClear(fn.body, line, entering);
      AlarmReal(fn, entering, line);
    }
  }
}
