/** The parsed form of a router module, as far as the route-pipeline contract
    check looks at it: functions, statements, and the calls each of them makes. */
module RouteSyntax {

  /** The callee of a call: a plain name, an attribute, or anything else. */
  datatype Callee = Name(id: string) | Attr(attr: string) | Computed

  /** What a `raise` statement raises. Only `Invoke` performs a call. */
  datatype Exc = Bare | Value(callee: Callee) | Invoke(callee: Callee, args: seq<Callee>)

  /** A decorator. `onRouter` says that an attribute decorator hangs on a plain
      name that contains "router"; `invoked` tells `@r.get("/")` from `@r.get`. */
  datatype Decorator = Decorator(line: nat, target: Callee, onRouter: bool, invoked: bool, args: seq<Callee>)

  datatype Func = Func(name: string, line: nat, decorators: seq<Decorator>, defaults: seq<Callee>, body: seq<Stmt>)

  /** Statements; each sits on a line of its own. */
  datatype Stmt =
    | Eval(line: nat, calls: seq<Callee>)
    | Return(line: nat, calls: seq<Callee>)
    | Raise(line: nat, exc: Exc)
    | Break(line: nat)
    | Continue(line: nat)
    | If(line: nat, test: seq<Callee>, thn: seq<Stmt>, els: seq<Stmt>)
    | Loop(line: nat, test: seq<Callee>, body: seq<Stmt>)
    | With(line: nat, calls: seq<Callee>, body: seq<Stmt>)
    | Def(fn: Func)

  const HTTP_VERBS: set<string> := {"get", "post", "put", "patch", "delete"}
  const PIPELINE_CALLS: set<string> := {"execute_with_pipeline", "execute_with_pipeline_sync"}

  /** The name by which a callee can be recognised, if any. */
  function NamesOf(callee: Callee): set<string> {
    match callee
    case Name(id) => {id}
    case Attr(attr) => {attr}
    case Computed => {}
  }

  function AllNames(calls: seq<Callee>): set<string> {
    set c, n | c in calls && n in NamesOf(c) :: n
  }

  /** One of the calls goes to a name in `entering`. */
  predicate Enters(calls: seq<Callee>, entering: set<string>) {
    exists c :: c in calls && NamesOf(c) * entering != {}
  }

  function ExcCalls(exc: Exc): seq<Callee> {
    if exc.Invoke? then [exc.callee] + exc.args else []
  }

  predicate IsHttp(exc: Exc) {
    !exc.Bare? && exc.callee == Name("HTTPException")
  }

  function DecoratorCalls(d: Decorator): seq<Callee> {
    if d.invoked then [d.target] + d.args else d.args
  }

  function DecoratorsCalls(ds: seq<Decorator>): seq<Callee> {
    if ds == [] then [] else DecoratorCalls(ds[0]) + DecoratorsCalls(ds[1..])
  }

  /** Calls made when the `def` itself runs: decorators and default values. */
  function HeaderCalls(fn: Func): seq<Callee> {
    DecoratorsCalls(fn.decorators) + fn.defaults
  }

  /** Calls a statement makes by itself, before any statement inside it. */
  function OwnCalls(s: Stmt): seq<Callee> {
    match s
    case Eval(_, calls) => calls
    case Return(_, calls) => calls
    case Raise(_, exc) => ExcCalls(exc)
    case Break(_) => []
    case Continue(_) => []
    case If(_, test, _, _) => test
    case Loop(_, test, _) => test
    case With(_, calls, _) => calls
    case Def(fn) => HeaderCalls(fn)
  }

  /** Every name called anywhere under the statements, nested functions included. */
  function CalledNames(ss: seq<Stmt>): set<string>
    decreases ss, 0
  {
    if ss == [] then {} else CalledIn(ss[0]) + CalledNames(ss[1..])
  }

  function CalledIn(s: Stmt): set<string>
    decreases s, 1
  {
    AllNames(OwnCalls(s)) +
    match s
    case If(_, _, thn, els) => CalledNames(thn) + CalledNames(els)
    case Loop(_, _, body) => CalledNames(body)
    case With(_, _, body) => CalledNames(body)
    case Def(fn) => CalledNames(fn.body)
    case _ => {}
  }

  /** All functions defined under the statements, at any depth. */
  function AllFuncs(ss: seq<Stmt>): seq<Func>
    decreases ss, 0
  {
    if ss == [] then [] else FuncsIn(ss[0]) + AllFuncs(ss[1..])
  }

  function FuncsIn(s: Stmt): seq<Func>
    decreases s, 1
  {
    match s
    case If(_, _, thn, els) => AllFuncs(thn) + AllFuncs(els)
    case Loop(_, _, body) => AllFuncs(body)
    case With(_, _, body) => AllFuncs(body)
    case Def(fn) => [fn] + AllFuncs(fn.body)
    case _ => []
  }

  // ---- calls, statements and functions, told by what the text says ----

  predicate IsTo(c: Callee, name: string) {
    c == Name(name) || c == Attr(name)
  }

  /** A decorator makes a call by being one, or in its arguments. */
  predicate DecoratorMakes(d: Decorator, c: Callee) {
    (d.invoked && c == d.target) || c in d.args
  }

  /** The statement makes the call itself, not by a statement inside it. A `def` does so in its
      decorators and default values. */
  predicate Makes(s: Stmt, c: Callee) {
    match s
    case Eval(_, calls) => c in calls
    case Return(_, calls) => c in calls
    case Raise(_, exc) => exc.Invoke? && (c == exc.callee || c in exc.args)
    case If(_, test, _, _) => c in test
    case Loop(_, test, _) => c in test
    case With(_, calls, _) => c in calls
    case Def(fn) => c in fn.defaults || exists d :: d in fn.decorators && DecoratorMakes(d, c)
    case _ => false
  }

  lemma DecoratorCallsExactly(d: Decorator, c: Callee)
    ensures c in DecoratorCalls(d) <==> DecoratorMakes(d, c)
  {}

  lemma {:induction false} DecoratorsCallsExactly(ds: seq<Decorator>, c: Callee)
    ensures c in DecoratorsCalls(ds) <==> exists d :: d in ds && DecoratorMakes(d, c)
  {
    if ds != [] {
      DecoratorCallsExactly(ds[0], c);
      DecoratorsCallsExactly(ds[1..], c);
      assert ds == [ds[0]] + ds[1..];
    }
  }

  lemma OwnCallsExactly(s: Stmt, c: Callee)
    ensures c in OwnCalls(s) <==> Makes(s, c)
  {
    if s.Def? { DecoratorsCallsExactly(s.fn.decorators, c); }
  }

  /** `x` stands somewhere among the statements, at any depth; with `deep`, also inside nested
      functions. */
  ghost predicate Among(x: Stmt, ss: seq<Stmt>, deep: bool)
    decreases ss, 0
  {
    exists i :: 0 <= i < |ss| && Under(x, ss[i], deep)
  }

  ghost predicate Under(x: Stmt, s: Stmt, deep: bool)
    decreases s, 1
  {
    x == s ||
    match s
    case If(_, _, thn, els) => Among(x, thn, deep) || Among(x, els, deep)
    case Loop(_, _, body) => Among(x, body, deep)
    case With(_, _, body) => Among(x, body, deep)
    case Def(fn) => deep && Among(x, fn.body, deep)
    case _ => false
  }

  lemma AmongCons(x: Stmt, ss: seq<Stmt>, deep: bool)
    requires ss != []
    ensures Among(x, ss, deep) <==> Under(x, ss[0], deep) || Among(x, ss[1..], deep)
  {
    var rest := ss[1..];
    if i :| 0 <= i < |ss| && Under(x, ss[i], deep) {
      if i > 0 { assert Under(x, rest[i - 1], deep); }
    }
    if i :| 0 <= i < |rest| && Under(x, rest[i], deep) { assert Under(x, ss[i + 1], deep); }
  }

  /** A name is called under the statements exactly when one of them, at any depth and also in
      nested functions, makes a call to it. */
  lemma CalledExactly(ss: seq<Stmt>, n: string)
    ensures n in CalledNames(ss) <==> exists x, c :: Among(x, ss, true) && Makes(x, c) && IsTo(c, n)
    decreases ss, 0
  {
    if ss != [] {
      CalledInExactly(ss[0], n);
      CalledExactly(ss[1..], n);
      forall x { AmongCons(x, ss, true); }
    }
  }

  lemma OwnNames(s: Stmt, n: string)
    ensures n in AllNames(OwnCalls(s)) <==> exists c :: Makes(s, c) && IsTo(c, n)
  {
    forall c { OwnCallsExactly(s, c); }
    if c :| Makes(s, c) && IsTo(c, n) { assert c in OwnCalls(s) && n in NamesOf(c); }
  }

  lemma CalledInExactly(s: Stmt, n: string)
    ensures n in CalledIn(s) <==> exists x, c :: Under(x, s, true) && Makes(x, c) && IsTo(c, n)
    decreases s, 1
  {
    OwnNames(s, n);
    assert Under(s, s, true);
    match s
    case If(_, _, thn, els) => CalledExactly(thn, n); CalledExactly(els, n);
    case Loop(_, _, body) => CalledExactly(body, n);
    case With(_, _, body) => CalledExactly(body, n);
    case Def(fn) => CalledExactly(fn.body, n);
    case _ =>
  }

  /** All functions of a module are those whose `def` stands in it, at any depth. */
  lemma FuncsExactly(ss: seq<Stmt>, fn: Func)
    ensures fn in AllFuncs(ss) <==> Among(Def(fn), ss, true)
    decreases ss, 0
  {
    if ss != [] {
      FuncsInExactly(ss[0], fn);
      FuncsExactly(ss[1..], fn);
      AmongCons(Def(fn), ss, true);
    }
  }

  lemma FuncsInExactly(s: Stmt, fn: Func)
    ensures fn in FuncsIn(s) <==> Under(Def(fn), s, true)
    decreases s, 1
  {
    match s
    case If(_, _, thn, els) => FuncsExactly(thn, fn); FuncsExactly(els, fn);
    case Loop(_, _, body) => FuncsExactly(body, fn);
    case With(_, _, body) => FuncsExactly(body, fn);
    case Def(f) => FuncsExactly(f.body, fn);
    case _ =>
  }
}
