/** Replaying the newest migrations: down some revisions, up again, and the schema compared. */
module Replay {
  import opened Options
  import opened Schema
  import opened Databases
  import opened Revisions

  datatype Script = Script(down: Option<string>, upgrade: seq<Op>, downgrade: seq<Op>)

  type Scripts = map<string, Script>

  /** The scripts are one line of revisions, listed from the head to the base. */
  ghost predicate Linear(scripts: Scripts, line: seq<string>) {
    && line != []
    && (forall i :: 0 <= i < |line| ==> line[i] in scripts)
    && (forall r :: r in scripts ==> r in line)
    && (forall i, j :: 0 <= i < j < |line| ==> line[i] != line[j])
    && (forall i :: 0 <= i < |line| ==>
          scripts[line[i]].down == if i + 1 < |line| then Some(line[i + 1]) else None)
  }

  lemma Below(scripts: Scripts, line: seq<string>, i: nat)
    requires Linear(scripts, line) && i < |line|
    ensures line[i] in scripts
    ensures scripts[line[i]].down == if i + 1 < |line| then Some(line[i + 1]) else None
  {}

  /** The revisions that no other revision builds on. */
  function Heads(scripts: Scripts): set<string> {
    set r | r in scripts && forall s :: s in scripts ==> scripts[s].down != Some(r)
  }

  lemma OneHead(scripts: Scripts, line: seq<string>)
    requires Linear(scripts, line)
    ensures Heads(scripts) == {line[0]}
  {
    forall s | s in scripts ensures scripts[s].down != Some(line[0]) {
      var i :| 0 <= i < |line| && line[i] == s;
      Below(scripts, line, i);
    }
    forall r | r in scripts && r != line[0] ensures r !in Heads(scripts) {
      var i :| 0 <= i < |line| && line[i] == r;
      assert scripts[line[i - 1]].down == Some(r);
    }
  }

  method Head(scripts: Scripts, ghost line: seq<string>) returns (head: string)
    requires Linear(scripts, line)
    ensures head == line[0]
  {
    OneHead(scripts, line);
    var heads := Heads(scripts);
    head :| head in heads;
  }

  /** How many revisions can be walked down: never the base. */
  function Walked(line: seq<string>, steps: int): nat
    requires line != []
  {
    if steps <= 0 then 0 else if steps < |line| then steps else |line| - 1
  }

  /** The revisions a downgrade by `steps` passes through, newest first. */
  method WalkDown(scripts: Scripts, steps: int, ghost line: seq<string>) returns (chain: seq<string>)
    requires Linear(scripts, line)
    ensures chain == line[..Walked(line, steps)]
  {
    var rev := Head(scripts, line);
    chain := [];
    var i := 0;
    while i < steps
      invariant 0 <= i && (steps <= 0 ==> i == 0) && (steps > 0 ==> i <= steps)
      invariant i < |line| && chain == line[..i] && rev == line[i]
    {
      Below(scripts, line, i);
      if scripts[rev].down.None? { break; }
      chain := chain + [rev];
      rev := scripts[rev].down.value;
      i := i + 1;
    }
    assert i == Walked(line, steps);
  }

  /** The walk stops short of the base, so that what it would go down to is a revision. */
  lemma WalkLeavesBase(scripts: Scripts, line: seq<string>, steps: int)
    requires Linear(scripts, line)
    ensures line[|line| - 1] !in line[..Walked(line, steps)]
    ensures var n := Walked(line, steps); n > 0 ==> scripts[line[n - 1]].down == Some(line[n]) && line[n] in scripts
    ensures Walked(line, steps) == 0 <==> steps <= 0 || |line| == 1
  {
    var n := Walked(line, steps);
    forall i | 0 <= i < n ensures line[..n][i] != line[|line| - 1] {}
  }

  // ---- what the scripts of a chain come to ----

  function DownOps(scripts: Scripts, chain: seq<string>): seq<Op>
    requires forall i :: 0 <= i < |chain| ==> chain[i] in scripts
  {
    if chain == [] then [] else scripts[chain[0]].downgrade + DownOps(scripts, chain[1..])
  }

  function UpOps(scripts: Scripts, chain: seq<string>): seq<Op>
    requires forall i :: 0 <= i < |chain| ==> chain[i] in scripts
  {
    if chain == [] then [] else UpOps(scripts, chain[1..]) + scripts[chain[0]].upgrade
  }

  lemma OneOps(scripts: Scripts, rev: string)
    requires rev in scripts
    ensures DownOps(scripts, [rev]) == scripts[rev].downgrade
    ensures UpOps(scripts, [rev]) == scripts[rev].upgrade
  {
    assert [rev][1..] == [];
    assert DownOps(scripts, [rev]) == scripts[rev].downgrade + DownOps(scripts, []);
    assert UpOps(scripts, [rev]) == UpOps(scripts, []) + scripts[rev].upgrade;
  }

  lemma {:induction false} DownOpsSplit(scripts: Scripts, xs: seq<string>, ys: seq<string>)
    requires forall i :: 0 <= i < |xs| ==> xs[i] in scripts
    requires forall i :: 0 <= i < |ys| ==> ys[i] in scripts
    ensures DownOps(scripts, xs + ys) == DownOps(scripts, xs) + DownOps(scripts, ys)
  {
    if xs == [] {
      assert xs + ys == ys;
    } else {
      assert (xs + ys)[1..] == xs[1..] + ys;
      DownOpsSplit(scripts, xs[1..], ys);
      Associate(scripts[xs[0]].downgrade, DownOps(scripts, xs[1..]), DownOps(scripts, ys));
    }
  }

  lemma {:induction false} UpOpsSplit(scripts: Scripts, xs: seq<string>, ys: seq<string>)
    requires forall i :: 0 <= i < |xs| ==> xs[i] in scripts
    requires forall i :: 0 <= i < |ys| ==> ys[i] in scripts
    ensures UpOps(scripts, xs + ys) == UpOps(scripts, ys) + UpOps(scripts, xs)
  {
    if xs == [] {
      assert xs + ys == ys;
    } else {
      assert (xs + ys)[1..] == xs[1..] + ys;
      UpOpsSplit(scripts, xs[1..], ys);
      Associate(UpOps(scripts, ys), UpOps(scripts, xs[1..]), scripts[xs[0]].upgrade);
    }
  }

  // ---- a database under migration ----

  /** The revisions above the current one, newest first. */
  method Pending(scripts: Scripts, version: Option<string>, ghost line: seq<string>, ghost n: nat)
    returns (pending: seq<string>)
    requires Linear(scripts, line) && n < |line| && version == Some(line[n])
    ensures pending == line[..n]
  {
    pending := [];
    var rev := Head(scripts, line);
    while Some(rev) != version
      invariant |pending| <= n && rev == line[|pending|] && pending == line[..|pending|]
      decreases n - |pending|
    {
      assert scripts[line[|pending|]].down == Some(line[|pending| + 1]);
      pending := pending + [rev];
      rev := scripts[rev].down.value;
    }
  }

  class Database {
    var tables: Db
    var version: Option<string>

    constructor (tables: Db, version: Option<string>)
      ensures this.tables == tables && this.version == version
    {
      this.tables := tables;
      this.version := version;
    }

    /** Executes statements until one fails. */
    method Run(ops: seq<Op>) returns (error: Option<Error>)
      modifies this`tables
      ensures error.None? ==> ExecuteAll(ops, old(tables)) == Done(tables)
      ensures error.Some? ==> ExecuteAll(ops, old(tables)) == Failed(error.value)
    {
      var i := 0;
      while i < |ops|
        invariant 0 <= i <= |ops|
        invariant ExecuteAll(ops, old(tables)) == ExecuteAll(ops[i..], tables)
      {
        match Execute(ops[i], tables)
        case Failed(e) => return Some(e);
        case Done(db) => tables := db;
        i := i + 1;
      }
      error := None;
    }

    /** `alembic downgrade <target>`: one transaction over all revisions above the target. */
    method Downgrade(scripts: Scripts, target: string, ghost line: seq<string>, ghost n: nat) returns (error: Option<Error>)
      requires Linear(scripts, line) && n < |line|
      requires version == Some(line[0]) && target == line[n]
      modifies this
      ensures match ExecuteAll(DownOps(scripts, line[..n]), old(tables))
        case Done(db) => error == None && tables == db && version == Some(target)
        case Failed(e) => error == Some(e) && tables == old(tables) && version == old(version)
    {
      var saved, at := tables, version;
      ghost var k := 0;
      while version != Some(target)
        invariant 0 <= k <= n && version == Some(line[k])
        invariant ExecuteAll(DownOps(scripts, line[..k]), old(tables)) == Done(tables)
        decreases n - k
      {
        var script := scripts[version.value];
        DownStep(scripts, line, k, n, old(tables), tables);
        error := Run(script.downgrade);
        if error.Some? {
          tables, version := saved, at;
          return;
        }
        version := script.down;
        k := k + 1;
      }
      error := None;
    }

    /** `alembic upgrade head`: one transaction over all revisions above the current one. */
    method UpgradeToHead(scripts: Scripts, ghost line: seq<string>, ghost n: nat) returns (error: Option<Error>)
      requires Linear(scripts, line) && n < |line| && version == Some(line[n])
      modifies this
      ensures match ExecuteAll(UpOps(scripts, line[..n]), old(tables))
        case Done(db) => error == None && tables == db && version == Some(line[0])
        case Failed(e) => error == Some(e) && tables == old(tables) && version == old(version)
    {
      var saved, at := tables, version;
      var pending := Pending(scripts, at, line, n);
      var k := |pending|;
      while k > 0
        invariant 0 <= k <= n && version == Some(line[k])
        invariant ExecuteAll(UpOps(scripts, line[k..n]), old(tables)) == Done(tables)
        decreases k
      {
        UpStep(scripts, line, k, n, old(tables), tables);
        error := Run(scripts[pending[k - 1]].upgrade);
        if error.Some? {
          tables, version := saved, at;
          return;
        }
        k := k - 1;
        version := Some(pending[k]);
      }
      assert line[0..n] == line[..n];
      error := None;
    }
  }

  lemma DownStep(scripts: Scripts, line: seq<string>, k: nat, n: nat, db: Db, at: Db)
    requires Linear(scripts, line) && k < n < |line| && ExecuteAll(DownOps(scripts, line[..k]), db) == Done(at)
    ensures ExecuteAll(DownOps(scripts, line[..k + 1]), db) == ExecuteAll(scripts[line[k]].downgrade, at)
    ensures ExecuteAll(scripts[line[k]].downgrade, at).Failed? ==>
      ExecuteAll(DownOps(scripts, line[..n]), db) == ExecuteAll(scripts[line[k]].downgrade, at)
  {
    OneMoreDown(scripts, line[..k], line[k], db);
    assert line[..k + 1] == line[..k] + [line[k]];
    DownParts(scripts, line[..n], line[..k + 1], line[k + 1..n], db);
  }

  lemma OneMoreDown(scripts: Scripts, chain: seq<string>, next: string, db: Db)
    requires next in scripts && forall i :: 0 <= i < |chain| ==> chain[i] in scripts
    ensures ExecuteAll(DownOps(scripts, chain + [next]), db) ==
      Followed(ExecuteAll(DownOps(scripts, chain), db), scripts[next].downgrade)
  {
    OneOps(scripts, next);
    DownParts(scripts, chain + [next], chain, [next], db);
  }

  lemma DownParts(scripts: Scripts, chain: seq<string>, xs: seq<string>, ys: seq<string>, db: Db)
    requires chain == xs + ys && forall i :: 0 <= i < |chain| ==> chain[i] in scripts
    ensures forall i :: 0 <= i < |xs| ==> xs[i] in scripts
    ensures forall i :: 0 <= i < |ys| ==> ys[i] in scripts
    ensures ExecuteAll(DownOps(scripts, chain), db) ==
      Followed(ExecuteAll(DownOps(scripts, xs), db), DownOps(scripts, ys))
  {
    forall i | 0 <= i < |xs| ensures xs[i] in scripts { assert chain[i] == xs[i]; }
    forall i | 0 <= i < |ys| ensures ys[i] in scripts { assert chain[|xs| + i] == ys[i]; }
    DownOpsSplit(scripts, xs, ys);
    ExecuteSplit(DownOps(scripts, xs), DownOps(scripts, ys), db);
  }

  lemma UpStep(scripts: Scripts, line: seq<string>, k: nat, n: nat, db: Db, at: Db)
    requires Linear(scripts, line) && 0 < k <= n < |line| && ExecuteAll(UpOps(scripts, line[k..n]), db) == Done(at)
    ensures ExecuteAll(UpOps(scripts, line[k - 1..n]), db) == ExecuteAll(scripts[line[k - 1]].upgrade, at)
    ensures ExecuteAll(scripts[line[k - 1]].upgrade, at).Failed? ==>
      ExecuteAll(UpOps(scripts, line[..n]), db) == ExecuteAll(scripts[line[k - 1]].upgrade, at)
  {
    assert line[k - 1..n][1..] == line[k..n];
    ExecuteSplit(UpOps(scripts, line[k..n]), scripts[line[k - 1]].upgrade, db);
    assert line[..n] == line[..k - 1] + line[k - 1..n];
    UpOpsSplit(scripts, line[..k - 1], line[k - 1..n]);
    ExecuteSplit(UpOps(scripts, line[k - 1..n]), UpOps(scripts, line[..k - 1]), db);
  }
}
