/** Which module-level helpers are taken to enter the pipeline: three passes over
    the module that grow one set in place, and what exactly they find. */
module RouteClosure {
  import opened RouteSyntax

  /** A module-level statement, as far as the closure looks at it: whether it defines a
      function, of what name, and which names are called under it. */
  datatype Part = Part(def: bool, name: string, calls: set<string>)

  function PartFor(s: Stmt): Part {
    Part(s.Def?, if s.Def? then s.fn.name else "", CalledIn(s))
  }

  function Outline(m: seq<Stmt>): seq<Part> {
    seq(|m|, i requires 0 <= i < |m| => PartFor(m[i]))
  }

  /** One pass from position `i` on; a helper found early helps those after it. */
  function Pass(m: seq<Part>, i: nat, entering: set<string>): set<string>
    requires i <= |m|
    decreases |m| - i
  {
    if i == |m| then entering
    else Pass(m, i + 1, Visit(m[i], entering))
  }

  function Visit(part: Part, entering: set<string>): set<string> {
    if part.def && part.calls * entering != {} then entering + {part.name} else entering
  }

  function Passes(m: seq<Part>, n: nat): set<string> {
    if n == 0 then PIPELINE_CALLS else Pass(m, 0, Passes(m, n - 1))
  }

  /** What the loop body does at position `i`. */
  lemma PassVisits(m: seq<Stmt>, i: nat, entering: set<string>)
    requires i < |m|
    ensures Pass(Outline(m), i, entering) ==
      Pass(Outline(m), i + 1, if m[i].Def? && CalledIn(m[i]) * entering != {} then entering + {m[i].fn.name} else entering)
  {}

  function EnteringNames(m: seq<Stmt>): set<string> {
    Passes(Outline(m), 3)
  }

  method PipelineEnteringNames(m: seq<Stmt>) returns (entering: set<string>)
    ensures entering == EnteringNames(m)
    ensures forall n :: n in entering <==> Reaches(Outline(m), n, 2)
  {
    entering := PIPELINE_CALLS;
    ghost var parts := Outline(m);
    for pass := 0 to 3
      invariant entering == Passes(parts, pass)
    {
      ghost var before := entering;
      for i := 0 to |m|
        invariant Pass(parts, i, entering) == Pass(parts, 0, before)
      {
        PassVisits(m, i, entering);
        if m[i].Def? && CalledIn(m[i]) * entering != {} {
          entering := entering + {m[i].fn.name};
        }
      }
    }
    EnteringExactly(m);
  }

  /** What the closure sees of a module-level statement: a `def`, its name, and the names that
      it, or anything under it, calls. */
  lemma OutlineExactly(m: seq<Stmt>, i: nat, n: string)
    requires i < |m|
    ensures Outline(m)[i].def <==> exists fn :: m[i] == Def(fn)
    ensures m[i].Def? ==> Outline(m)[i].name == m[i].fn.name
    ensures n in Outline(m)[i].calls <==> exists x, c :: Under(x, m[i], true) && Makes(x, c) && IsTo(c, n)
  {
    CalledInExactly(m[i], n);
    if m[i].Def? { assert m[i] == Def(m[i].fn); }
  }

  // ---- call chains ----

  /** The function at position `i` calls the one at position `j` by name. */
  predicate Calls(m: seq<Part>, i: nat, j: nat) {
    i < |m| && j < |m| && m[j].def && m[j].name in m[i].calls
  }

  /** `c` lists positions of module-level functions, each calling the next by name,
      the last one calling a pipeline entry point. */
  ghost predicate Chain(m: seq<Part>, c: seq<nat>) {
    && c != []
    && (forall k :: 0 <= k < |c| ==> c[k] < |m| && m[c[k]].def)
    && (forall k :: 0 <= k < |c| - 1 ==> Calls(m, c[k], c[k + 1]))
    && CallsPipeline(m[c[|c| - 1]])
  }

  predicate IsPipelineCall(n: string) {
    n == "execute_with_pipeline" || n == "execute_with_pipeline_sync"
  }

  predicate CallsPipeline(part: Part) {
    "execute_with_pipeline" in part.calls || "execute_with_pipeline_sync" in part.calls
  }

  /** How many links of the chain call a function that is not defined earlier. */
  function Forward(c: seq<nat>): nat {
    if |c| <= 1 then 0
    else (if c[1] >= c[0] then 1 else 0) + Forward(c[1..])
  }

  /** `n` enters the pipeline through a chain with at most `budget` forward links. */
  ghost predicate Reaches(m: seq<Part>, n: string, budget: int) {
    IsPipelineCall(n) ||
    exists c :: Chain(m, c) && m[c[0]].name == n && Forward(c) <= budget
  }

  /** What the set holds in pass `p` (counted from 0) before position `i` is visited:
      chains that start before `i` have had one more chance. */
  ghost predicate HasVisited(m: seq<Part>, s: set<string>, p: int, i: nat) {
    forall n :: n in s <==>
      (IsPipelineCall(n) ||
       exists c :: Chain(m, c) && m[c[0]].name == n && Forward(c) <= (if c[0] < i then p else p - 1))
  }

  lemma ChainTail(m: seq<Part>, c: seq<nat>)
    requires Chain(m, c) && |c| > 1
    ensures Chain(m, c[1..])
    ensures Calls(m, c[0], c[1])
    ensures Forward(c) == Forward(c[1..]) + (if c[1] >= c[0] then 1 else 0)
  {
    var t := c[1..];
    forall k | 0 <= k < |t| - 1 ensures Calls(m, t[k], t[k + 1]) {
      assert t[k] == c[k + 1] && t[k + 1] == c[k + 2];
    }
    assert t[|t| - 1] == c[|c| - 1];
  }

  lemma ChainCons(m: seq<Part>, i: nat, c: seq<nat>)
    requires Chain(m, c) && i < |m| && m[i].def && Calls(m, i, c[0])
    ensures Chain(m, [i] + c)
    ensures Forward([i] + c) == Forward(c) + (if c[0] >= i then 1 else 0)
  {
    var d := [i] + c;
    assert d[1..] == c;
    forall k | 0 <= k < |d| - 1 ensures Calls(m, d[k], d[k + 1]) {
      if k > 0 { assert d[k] == c[k - 1] && d[k + 1] == c[k]; }
    }
  }

  /** The visit at `i` adds the function there exactly when some chain from `i`
      has at most `p` forward links. */
  lemma VisitFinds(m: seq<Part>, s: set<string>, p: nat, i: nat)
    requires i < |m| && m[i].def && HasVisited(m, s, p, i)
    ensures m[i].calls * s != {} <==> exists c :: Chain(m, c) && c[0] == i && Forward(c) <= p
  {
    if n :| n in m[i].calls * s {
      var c := VisitSound(m, s, p, i, n);
    }
    forall c | Chain(m, c) && c[0] == i && Forward(c) <= p
      ensures m[i].calls * s != {}
    {
      VisitComplete(m, s, p, i, c);
    }
  }

  lemma VisitSound(m: seq<Part>, s: set<string>, p: nat, i: nat, n: string) returns (c: seq<nat>)
    requires i < |m| && m[i].def && HasVisited(m, s, p, i)
    requires n in m[i].calls && n in s
    ensures Chain(m, c) && c[0] == i && Forward(c) <= p
  {
    if IsPipelineCall(n) {
      assert CallsPipeline(m[i]);
      c := [i];
    } else {
      var t :| Chain(m, t) && m[t[0]].name == n && Forward(t) <= (if t[0] < i then p else p - 1);
      ChainCons(m, i, t);
      c := [i] + t;
    }
  }

  lemma VisitComplete(m: seq<Part>, s: set<string>, p: nat, i: nat, c: seq<nat>)
    requires i < |m| && m[i].def && HasVisited(m, s, p, i)
    requires Chain(m, c) && c[0] == i && Forward(c) <= p
    ensures m[i].calls * s != {}
  {
    if |c| == 1 {
      var n :| n in m[i].calls && IsPipelineCall(n);
      assert n in m[i].calls * s;
    } else {
      ChainTail(m, c);
      var t := c[1..];
      assert Forward(t) <= (if t[0] < i then p else p - 1);
      assert m[t[0]].name in m[i].calls * s;
    }
  }

  lemma VisitKeeps(m: seq<Part>, s: set<string>, p: nat, i: nat)
    requires i < |m| && HasVisited(m, s, p, i)
    ensures HasVisited(m, Visit(m[i], s), p, i + 1)
  {
    var s' := Visit(m[i], s);
    if m[i].def { VisitFinds(m, s, p, i); }
    forall n
      ensures n in s' <==>
        (IsPipelineCall(n) ||
         exists c :: Chain(m, c) && m[c[0]].name == n && Forward(c) <= (if c[0] < i + 1 then p else p - 1))
    {
      if n in s' && n !in s {
        var c :| Chain(m, c) && c[0] == i && Forward(c) <= p;
        assert m[c[0]].name == n;
      } else if n in s' && !IsPipelineCall(n) {
        var c :| Chain(m, c) && m[c[0]].name == n && Forward(c) <= (if c[0] < i then p else p - 1);
        assert Forward(c) <= (if c[0] < i + 1 then p else p - 1);
      }
      if c :| Chain(m, c) && m[c[0]].name == n && Forward(c) <= (if c[0] < i + 1 then p else p - 1) {
        if c[0] != i {
          assert Forward(c) <= (if c[0] < i then p else p - 1);
        }
      }
    }
  }

  lemma {:induction false} PassKeeps(m: seq<Part>, s: set<string>, p: nat, i: nat)
    requires i <= |m| && HasVisited(m, s, p, i)
    ensures HasVisited(m, Pass(m, i, s), p, |m|)
    decreases |m| - i
  {
    if i < |m| {
      VisitKeeps(m, s, p, i);
      PassKeeps(m, Visit(m[i], s), p, i + 1);
    }
  }

  /** After `n` passes the set holds exactly the pipeline calls and the helpers with
      a chain of at most `n - 1` forward links, whatever the depth of the chain. */
  lemma {:induction false} PassesExactly(m: seq<Part>, n: nat)
    ensures forall name :: name in Passes(m, n) <==> Reaches(m, name, n - 1)
  {
    if n > 0 {
      PassesExactly(m, n - 1);
      var s := Passes(m, n - 1);
      forall name
        ensures name in s <==>
          (IsPipelineCall(name) ||
           exists c :: Chain(m, c) && m[c[0]].name == name && Forward(c) <= (if c[0] < 0 then n - 1 else n - 2))
      {
        assert Reaches(m, name, n - 2) <==> name in s;
        if c :| Chain(m, c) && m[c[0]].name == name && Forward(c) <= n - 2 {
          assert Forward(c) <= (if c[0] < 0 then n - 1 else n - 2);
        }
      }
      assert HasVisited(m, s, n - 1, 0);
      PassKeeps(m, s, n - 1, 0);
      var s' := Passes(m, n);
      forall name ensures name in s' <==> Reaches(m, name, n - 1) {
        if c :| Chain(m, c) && m[c[0]].name == name && Forward(c) <= n - 1 {
          assert Forward(c) <= (if c[0] < |m| then n - 1 else n - 2);
        }
      }
    }
  }

  lemma EnteringExactly(m: seq<Stmt>)
    ensures forall n :: n in EnteringNames(m) <==> Reaches(Outline(m), n, 2)
  {
    PassesExactly(Outline(m), 3);
  }

  lemma {:induction false} ForwardBound(c: seq<nat>)
    requires c != []
    ensures Forward(c) <= |c| - 1
  {
    if |c| > 1 { ForwardBound(c[1..]); }
  }

  /** Every helper within three calls of the pipeline is found, in any definition order. */
  lemma ShortChainsFound(m: seq<Stmt>, c: seq<nat>)
    requires Chain(Outline(m), c) && |c| <= 3
    ensures m[c[0]].Def? && m[c[0]].fn.name in EnteringNames(m)
  {
    ForwardBound(c);
    EnteringExactly(m);
    assert Reaches(Outline(m), m[c[0]].fn.name, 2);
  }

  lemma {:induction false} NoForward(c: seq<nat>)
    requires forall k :: 0 <= k < |c| - 1 ==> c[k + 1] < c[k]
    ensures Forward(c) == 0
  {
    if |c| > 1 {
      var t := c[1..];
      forall k | 0 <= k < |t| - 1 ensures t[k + 1] < t[k] { assert c[k + 2] < c[k + 1]; }
      NoForward(t);
    }
  }

  /** A chain that only calls earlier definitions is found in the first pass, at any depth. */
  lemma BackwardChainsFoundFirst(m: seq<Part>, c: seq<nat>)
    requires Chain(m, c)
    requires forall k :: 0 <= k < |c| - 1 ==> c[k + 1] < c[k]
    ensures m[c[0]].name in Passes(m, 1)
  {
    NoForward(c);
    PassesExactly(m, 1);
    assert Reaches(m, m[c[0]].name, 0);
  }
}
