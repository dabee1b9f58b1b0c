/** The contract check itself: which raises of a route it reports, and how its
    verdict relates to what executions of the route can do. */
module RouteChecker {
  import opened Options
  import opened RouteSyntax
  import opened RouteClosure

  predicate IsRoute(fn: Func) {
    exists d :: d in fn.decorators && d.target.Attr? && d.target.attr in HTTP_VERBS && d.onRouter
  }

  /** A decorator of a router for one of the five verbs. */
  predicate Mounts(d: Decorator) {
    && d.onRouter
    && (d.target == Attr("get") || d.target == Attr("post") || d.target == Attr("put") || d.target == Attr("patch")
        || d.target == Attr("delete"))
  }

  lemma RouteExactly(fn: Func)
    ensures IsRoute(fn) <==> exists d :: d in fn.decorators && Mounts(d)
  {
    assert forall d :: d in fn.decorators ==> (Mounts(d) <==> d.target.Attr? && d.target.attr in HTTP_VERBS && d.onRouter);
  }

  // ---- the nodes the check looks at: everything outside nested functions ----

  function LineOf(s: Stmt): nat {
    if s.Def? then s.fn.line else s.line
  }

  /** Lines of `raise HTTPException` statements, in textual order. */
  function RaiseLines(ss: seq<Stmt>): seq<nat>
    decreases ss, 0
  {
    if ss == [] then [] else RaisesIn(ss[0]) + RaiseLines(ss[1..])
  }

  function RaisesIn(s: Stmt): seq<nat>
    decreases s, 1
  {
    match s
    case Raise(line, exc) => if IsHttp(exc) then [line] else []
    case If(_, _, thn, els) => RaiseLines(thn) + RaiseLines(els)
    case Loop(_, _, body) => RaiseLines(body)
    case With(_, _, body) => RaiseLines(body)
    case _ => []
  }

  /** Lines of calls to an entering name, in textual order. */
  function EntryLines(ss: seq<Stmt>, entering: set<string>): seq<nat>
    decreases ss, 0
  {
    if ss == [] then [] else EntriesIn(ss[0], entering) + EntryLines(ss[1..], entering)
  }

  function EntriesIn(s: Stmt, entering: set<string>): seq<nat>
    decreases s, 1
  {
    (if !s.Def? && Enters(OwnCalls(s), entering) then [s.line] else []) +
    match s
    case If(_, _, thn, els) => EntryLines(thn, entering) + EntryLines(els, entering)
    case Loop(_, _, body) => EntryLines(body, entering)
    case With(_, _, body) => EntryLines(body, entering)
    case _ => []
  }

  function DecoratorEntries(ds: seq<Decorator>, entering: set<string>): seq<nat> {
    if ds == [] then []
    else (if Enters(DecoratorCalls(ds[0]), entering) then [ds[0].line] else []) + DecoratorEntries(ds[1..], entering)
  }

  /** The entry lines of a route: its decorators and default values count as well. */
  function RouteEntries(fn: Func, entering: set<string>): seq<nat> {
    DecoratorEntries(fn.decorators, entering) +
    (if Enters(fn.defaults, entering) then [fn.line] else []) +
    EntryLines(fn.body, entering)
  }

  predicate Reported(fn: Func, entering: set<string>, line: nat) {
    line in RaiseLines(fn.body) && forall e :: e in RouteEntries(fn, entering) ==> line < e
  }

  function Keep(lines: seq<nat>, entries: seq<nat>): seq<nat> {
    if lines == [] then []
    else (if forall e :: e in entries ==> lines[0] < e then [lines[0]] else []) + Keep(lines[1..], entries)
  }

  /** The report on one function. */
  function Findings(fn: Func, entering: set<string>): seq<(string, nat)> {
    Named(fn.name, Keep(RaiseLines(fn.body), RouteEntries(fn, entering)))
  }

  function Named(name: string, lines: seq<nat>): seq<(string, nat)> {
    seq(|lines|, i requires 0 <= i < |lines| => (name, lines[i]))
  }

  function Report(fns: seq<Func>, entering: set<string>): seq<(string, nat)> {
    if fns == [] then []
    else (if IsRoute(fns[0]) then Findings(fns[0], entering) else []) + Report(fns[1..], entering)
  }

  // ---- what is reported, told by the text of the function ----

  /** The call counts as an entry: its function or attribute has one of the names. */
  predicate IsEntry(c: Callee, entering: set<string>) {
    (c.Name? && c.id in entering) || (c.Attr? && c.attr in entering)
  }

  lemma EntersExactly(calls: seq<Callee>, entering: set<string>)
    ensures Enters(calls, entering) <==> exists c :: c in calls && IsEntry(c, entering)
  {
    forall c: Callee ensures NamesOf(c) * entering != {} <==> IsEntry(c, entering) {
      if c.Name? && c.id in entering { assert c.id in NamesOf(c) * entering; }
      if c.Attr? && c.attr in entering { assert c.attr in NamesOf(c) * entering; }
    }
  }

  ghost predicate MakesEntry(s: Stmt, entering: set<string>) {
    exists c :: Makes(s, c) && IsEntry(c, entering)
  }

  /** A statement of the function outside nested functions enters on that line. */
  ghost predicate StatementEnters(ss: seq<Stmt>, entering: set<string>, line: nat) {
    exists s :: Among(s, ss, false) && !s.Def? && s.line == line && MakesEntry(s, entering)
  }

  /** An entry on the line: a decorator's call, a call in a default value on the line of the
      `def`, or a call of a statement outside nested functions. */
  ghost predicate EntersAt(fn: Func, entering: set<string>, line: nat) {
    || (exists d, c :: d in fn.decorators && d.line == line && DecoratorMakes(d, c) && IsEntry(c, entering))
    || (line == fn.line && exists c :: c in fn.defaults && IsEntry(c, entering))
    || StatementEnters(fn.body, entering, line)
  }

  predicate RaisesHttp(s: Stmt) {
    s.Raise? && (s.exc == Value(Name("HTTPException")) || (s.exc.Invoke? && s.exc.callee == Name("HTTPException")))
  }

  /** `raise HTTPException` stands on the line, outside nested functions. */
  ghost predicate RaisesAt(ss: seq<Stmt>, line: nat) {
    exists s :: Among(s, ss, false) && RaisesHttp(s) && s.line == line
  }

  /** ... and no entry at or above it. */
  ghost predicate Violates(fn: Func, entering: set<string>, line: nat) {
    RaisesAt(fn.body, line) && forall e :: EntersAt(fn, entering, e) ==> line < e
  }

  lemma RaiseLinesExactly(ss: seq<Stmt>, line: nat)
    ensures line in RaiseLines(ss) <==> RaisesAt(ss, line)
    decreases ss, 0
  {
    if ss != [] {
      RaisesInExactly(ss[0], line);
      RaiseLinesExactly(ss[1..], line);
      forall x { AmongCons(x, ss, false); }
    }
  }

  lemma RaisesInExactly(s: Stmt, line: nat)
    ensures line in RaisesIn(s) <==> exists x :: Under(x, s, false) && RaisesHttp(x) && x.line == line
    decreases s, 1
  {
    assert Under(s, s, false);
    match s
    case If(_, _, thn, els) => RaiseLinesExactly(thn, line); RaiseLinesExactly(els, line);
    case Loop(_, _, body) => RaiseLinesExactly(body, line);
    case With(_, _, body) => RaiseLinesExactly(body, line);
    case _ =>
  }

  lemma OwnEntry(s: Stmt, entering: set<string>)
    ensures Enters(OwnCalls(s), entering) <==> MakesEntry(s, entering)
  {
    EntersExactly(OwnCalls(s), entering);
    forall c { OwnCallsExactly(s, c); }
  }

  lemma EntryLinesExactly(ss: seq<Stmt>, entering: set<string>, line: nat)
    ensures line in EntryLines(ss, entering) <==> StatementEnters(ss, entering, line)
    decreases ss, 0
  {
    if ss != [] {
      EntriesInExactly(ss[0], entering, line);
      EntryLinesExactly(ss[1..], entering, line);
      forall x { AmongCons(x, ss, false); }
    }
  }

  lemma EntriesInExactly(s: Stmt, entering: set<string>, line: nat)
    ensures line in EntriesIn(s, entering) <==>
      exists x :: Under(x, s, false) && !x.Def? && x.line == line && MakesEntry(x, entering)
    decreases s, 1
  {
    OwnEntry(s, entering);
    assert Under(s, s, false);
    match s
    case If(_, _, thn, els) => EntryLinesExactly(thn, entering, line); EntryLinesExactly(els, entering, line);
    case Loop(_, _, body) => EntryLinesExactly(body, entering, line);
    case With(_, _, body) => EntryLinesExactly(body, entering, line);
    case _ =>
  }

  lemma {:induction false} DecoratorEntriesExactly(ds: seq<Decorator>, entering: set<string>, line: nat)
    ensures line in DecoratorEntries(ds, entering) <==>
      exists d, c :: d in ds && d.line == line && DecoratorMakes(d, c) && IsEntry(c, entering)
  {
    if ds != [] {
      DecoratorEntriesExactly(ds[1..], entering, line);
      EntersExactly(DecoratorCalls(ds[0]), entering);
      forall c { DecoratorCallsExactly(ds[0], c); }
      assert ds == [ds[0]] + ds[1..];
    }
  }

  /** The lines counted as entries are those on which an entering call is made: by a decorator,
      in a default value, or by a statement outside nested functions; and no others. */
  lemma EntriesExactly(fn: Func, entering: set<string>, line: nat)
    ensures line in RouteEntries(fn, entering) <==> EntersAt(fn, entering, line)
  {
    DecoratorEntriesExactly(fn.decorators, entering, line);
    EntersExactly(fn.defaults, entering);
    EntryLinesExactly(fn.body, entering, line);
  }

  /** A line is reported exactly when it raises HTTPException outside nested functions and no
      entry stands at or above it. */
  lemma ReportedExactly(fn: Func, entering: set<string>, line: nat)
    ensures Reported(fn, entering, line) <==> Violates(fn, entering, line)
  {
    RaiseLinesExactly(fn.body, line);
    forall e: nat { EntriesExactly(fn, entering, e); }
  }

  /** The smallest of the lines, if there is any. */
  method FirstLine(lines: seq<nat>) returns (first: Option<nat>)
    ensures first.None? <==> lines == []
    ensures first.Some? ==> first.value in lines && forall e :: e in lines ==> first.value <= e
  {
    first := None;
    for i := 0 to |lines|
      invariant first.None? <==> i == 0
      invariant first.Some? ==> first.value in lines[..i] && forall e :: e in lines[..i] ==> first.value <= e
    {
      if first.None? || lines[i] < first.value {
        first := Some(lines[i]);
      }
      assert lines[..i + 1] == lines[..i] + [lines[i]];
    }
    assert lines[..|lines|] == lines;
  }

  method FindingsIn(fn: Func, entering: set<string>) returns (found: seq<(string, nat)>)
    ensures found == Findings(fn, entering)
    ensures forall v :: v in found <==> v.0 == fn.name && Violates(fn, entering, v.1)
  {
    var entries := RouteEntries(fn, entering);
    var first := FirstLine(entries);
    var lines := RaiseLines(fn.body);
    found := [];
    for j := 0 to |lines|
      invariant found == Named(fn.name, Keep(lines[..j], entries))
    {
      KeepSnoc(lines[..j], lines[j], entries);
      assert lines[..j + 1] == lines[..j] + [lines[j]];
      if first.None? || lines[j] < first.value {
        found := found + [(fn.name, lines[j])];
      }
    }
    assert lines[..|lines|] == lines;
    forall v { FindingsViolate(fn, entering, v); }
  }

  method ViolationsIn(m: seq<Stmt>) returns (found: seq<(string, nat)>)
    ensures found == Report(AllFuncs(m), EnteringNames(m))
    ensures forall v :: v in found <==>
      exists fn :: Among(Def(fn), m, true) && (exists d :: d in fn.decorators && Mounts(d))
                   && v.0 == fn.name && Violates(fn, EnteringNames(m), v.1)
  {
    var entering := PipelineEnteringNames(m);
    var fns := AllFuncs(m);
    found := [];
    for i := 0 to |fns|
      invariant found + Report(fns[i..], entering) == Report(fns, entering)
    {
      ReportGoesOn(found, fns, i, entering);
      if IsRoute(fns[i]) {
        var more := FindingsIn(fns[i], entering);
        found := found + more;
      }
    }
    forall v { ViolationsExactly(m, v); }
  }

  lemma FindingsViolate(fn: Func, entering: set<string>, v: (string, nat))
    ensures v in Findings(fn, entering) <==> v.0 == fn.name && Violates(fn, entering, v.1)
  {
    FindingsExactly(fn, entering, v);
    ReportedExactly(fn, entering, v.1);
  }

  lemma ViolationsExactly(m: seq<Stmt>, v: (string, nat))
    ensures v in Report(AllFuncs(m), EnteringNames(m)) <==>
      exists fn :: Among(Def(fn), m, true) && (exists d :: d in fn.decorators && Mounts(d))
                   && v.0 == fn.name && Violates(fn, EnteringNames(m), v.1)
  {
    ReportExactly(AllFuncs(m), EnteringNames(m), v);
    forall fn: Func
      ensures fn in AllFuncs(m) && IsRoute(fn) && Reported(fn, EnteringNames(m), v.1) <==>
        Among(Def(fn), m, true) && (exists d :: d in fn.decorators && Mounts(d)) && Violates(fn, EnteringNames(m), v.1)
    {
      FuncsExactly(m, fn);
      RouteExactly(fn);
      ReportedExactly(fn, EnteringNames(m), v.1);
    }
  }

  /** What the loop body does with function `i`. */
  lemma ReportGoesOn(found: seq<(string, nat)>, fns: seq<Func>, i: nat, entering: set<string>)
    requires i < |fns|
    ensures found + Report(fns[i..], entering) ==
      (if IsRoute(fns[i]) then found + Findings(fns[i], entering) else found) + Report(fns[i + 1..], entering)
  {
    assert fns[i..][1..] == fns[i + 1..];
    var first, rest := (if IsRoute(fns[i]) then Findings(fns[i], entering) else []), Report(fns[i + 1..], entering);
    assert Report(fns[i..], entering) == first + rest;
    assert found + (first + rest) == (found + first) + rest;
  }

  lemma {:induction false} KeepSnoc(lines: seq<nat>, line: nat, entries: seq<nat>)
    ensures Keep(lines + [line], entries) ==
            Keep(lines, entries) + if forall e :: e in entries ==> line < e then [line] else []
  {
    if lines != [] {
      assert (lines + [line])[1..] == lines[1..] + [line];
      KeepSnoc(lines[1..], line, entries);
      var first := if forall e :: e in entries ==> lines[0] < e then [lines[0]] else [];
      var last := if forall e :: e in entries ==> line < e then [line] else [];
      assert (first + Keep(lines[1..], entries)) + last == first + (Keep(lines[1..], entries) + last);
    }
  }

  lemma {:induction false} KeepExactly(lines: seq<nat>, entries: seq<nat>, line: nat)
    ensures line in Keep(lines, entries) <==> line in lines && forall e :: e in entries ==> line < e
  {
    if lines != [] { KeepExactly(lines[1..], entries, line); }
  }

  lemma FindingsExactly(fn: Func, entering: set<string>, v: (string, nat))
    ensures v in Findings(fn, entering) <==> v.0 == fn.name && Reported(fn, entering, v.1)
  {
    KeepExactly(RaiseLines(fn.body), RouteEntries(fn, entering), v.1);
    var kept := Keep(RaiseLines(fn.body), RouteEntries(fn, entering));
    if v.0 == fn.name && v.1 in kept {
      var i :| 0 <= i < |kept| && kept[i] == v.1;
      assert Findings(fn, entering)[i] == v;
    }
  }

  /** The report names exactly the reported raises of the route functions. */
  lemma {:induction false} ReportExactly(fns: seq<Func>, entering: set<string>, v: (string, nat))
    ensures v in Report(fns, entering) <==>
      exists fn :: fn in fns && IsRoute(fn) && v.0 == fn.name && Reported(fn, entering, v.1)
  {
    if fns != [] {
      FindingsExactly(fns[0], entering, v);
      ReportExactly(fns[1..], entering, v);
      assert fns == [fns[0]] + fns[1..];
    }
  }

  // ---- nested functions ----

  /** The statements with every nested function emptied: no decorators, defaults or body. */
  function Hollow(ss: seq<Stmt>): seq<Stmt>
    decreases ss, 0
  {
    if ss == [] then [] else [HollowIn(ss[0])] + Hollow(ss[1..])
  }

  function HollowIn(s: Stmt): Stmt
    decreases s, 1
  {
    match s
    case If(line, test, thn, els) => If(line, test, Hollow(thn), Hollow(els))
    case Loop(line, test, body) => Loop(line, test, Hollow(body))
    case With(line, calls, body) => With(line, calls, Hollow(body))
    case Def(fn) => Def(Func(fn.name, fn.line, [], [], []))
    case _ => s
  }

  lemma HollowSame(ss: seq<Stmt>, entering: set<string>)
    ensures RaiseLines(Hollow(ss)) == RaiseLines(ss) && EntryLines(Hollow(ss), entering) == EntryLines(ss, entering)
    decreases ss, 0
  {
    if ss != [] {
      HollowSameIn(ss[0], entering);
      HollowSame(ss[1..], entering);
      assert Hollow(ss)[1..] == Hollow(ss[1..]);
    }
  }

  lemma HollowSameIn(s: Stmt, entering: set<string>)
    ensures RaisesIn(HollowIn(s)) == RaisesIn(s) && EntriesIn(HollowIn(s), entering) == EntriesIn(s, entering)
    decreases s, 1
  {
    match s
    case If(_, _, thn, els) => HollowSame(thn, entering); HollowSame(els, entering);
    case Loop(_, _, body) => HollowSame(body, entering);
    case With(_, _, body) => HollowSame(body, entering);
    case _ =>
  }

  /** Nothing inside a nested function affects the report on the route around it. */
  lemma NestedNeverReported(fn: Func, entering: set<string>)
    ensures Findings(fn.(body := Hollow(fn.body)), entering) == Findings(fn, entering)
  {
    HollowSame(fn.body, entering);
  }
}
