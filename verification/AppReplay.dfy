/** The two newest modelled revisions, 0a1b2c3d4e5f and its child 1b2c3d4e5f6a, replayed
    over populated databases; and a revision whose damage a replay does not see. */
module AppReplay {
  import opened Options
  import opened Schema
  import opened Changes
  import opened Databases
  import opened Revisions
  import opened Replay
  import opened ReplayCheck
  import opened ReplayDamage
  import E = EmbeddingRevision
  import I = IdempotencyRevision

  /** The statement succeeds or fails by the schema alone. */
  predicate RowBlind(op: Op) {
    op.On? ==>
      match op.op
      case DropColumn(_) => true
      case DropIndex(_) => true
      case _ => false
  }

  /** Which foreign keys there are is a matter of the schema. */
  lemma SamePointers(a: Db, b: Db, table: TableName, column: string)
    requires SameSchema(a, b) && table in a && Breaks(DropColumn(column), table, a)
    ensures Breaks(DropColumn(column), table, b)
  {
    var from, n :| from in a && n in a[from].constraints && PointsAt(a[from].constraints[n], from, table, column);
    assert SchemaOf(a[from]) == SchemaOf(b[from]);
    assert n in b[from].constraints && PointsAt(b[from].constraints[n], from, table, column);
  }

  lemma SameReferenced(a: Db, b: Db, table: TableName)
    requires SameSchema(a, b) && Referenced(table, a)
    ensures Referenced(table, b)
  {
    var from, n :| from in a && from != table && n in a[from].constraints
                   && a[from].constraints[n].ForeignKey? && a[from].constraints[n].refTable == table;
    assert SchemaOf(a[from]) == SchemaOf(b[from]);
    assert n in b[from].constraints && b[from].constraints[n].refTable == table;
  }

  lemma SameResolves(a: Db, b: Db, op: Op)
    requires op.CreateTable? && SameSchema(a, b)
    ensures Execute(op, a).Done? <==> Execute(op, b).Done?
  {
    var t := Table(op.columns, map[], op.constraints, []);
    forall n | n in op.constraints && op.constraints[n].ForeignKey?
      ensures Resolves(op.constraints[n], a[op.table := t]) <==> Resolves(op.constraints[n], b[op.table := t])
    {
      var other := op.constraints[n].refTable;
      if other in a { assert SchemaOf(a[other]) == SchemaOf(b[other]); }
    }
  }

  lemma BlindRunsAlike(op: Op, a: Db, b: Db)
    requires RowBlind(op) && SameSchema(a, b) && Execute(op, a).Done?
    ensures Execute(op, b).Done?
  {
    if op.On? {
      assert SchemaOf(a[op.table]) == SchemaOf(b[op.table]);
      if op.op.DropColumn? && Breaks(op.op, op.table, b) { SamePointers(b, a, op.table, op.op.column); }
    } else if op.CreateTable? {
      SameResolves(a, b, op);
    } else if Referenced(op.table, b) {
      SameReferenced(b, a, op.table);
    }
  }

  lemma SchemaSymmetric(a: Db, b: Db)
    requires SameSchema(a, b)
    ensures SameSchema(b, a)
  {
    forall table | table in b ensures SchemaOf(b[table]) == SchemaOf(a[table]) {
      assert SchemaOf(a[table]) == SchemaOf(b[table]);
    }
  }

  lemma BlindStep(op: Op, a: Db, b: Db)
    requires RowBlind(op) && SameSchema(a, b)
    ensures Execute(op, a).Done? <==> Execute(op, b).Done?
    ensures Execute(op, a).Done? ==> SameSchema(Execute(op, a).value, Execute(op, b).value)
  {
    SchemaSymmetric(a, b);
    if Execute(op, b).Done? { BlindRunsAlike(op, b, a); }
    if Execute(op, a).Done? {
      BlindRunsAlike(op, a, b);
      if op.On? {
        assert SchemaOf(a[op.table]) == SchemaOf(b[op.table]);
        SchemaStep(op.op, a[op.table], b[op.table]);
      }
    }
  }

  lemma {:induction false} BlindRun(ops: seq<Op>, a: Db, b: Db)
    requires SameSchema(a, b) && forall i :: 0 <= i < |ops| ==> RowBlind(ops[i])
    ensures ExecuteAll(ops, a).Done? <==> ExecuteAll(ops, b).Done?
    ensures ExecuteAll(ops, a).Done? ==> SameSchema(ExecuteAll(ops, a).value, ExecuteAll(ops, b).value)
  {
    if ops != [] {
      BlindStep(ops[0], a, b);
      if Execute(ops[0], a).Done? { BlindRun(ops[1..], Execute(ops[0], a).value, Execute(ops[0], b).value); }
    }
  }

  ghost predicate AllBlind(ops: seq<Op>) {
    forall i :: 0 <= i < |ops| ==> RowBlind(ops[i])
  }

  // ---- revisions that replay whatever the rows ----

  /** The revision undoes its upgrade, its downgrade depends on the schema alone, and its
      upgrade runs over any rows. */
  ghost predicate Steady(script: Script, before: Db) {
    && Undone(script, before) && AllBlind(script.downgrade)
    && (forall b :: Sound(b) && SameSchema(b, before) ==> ExecuteAll(script.upgrade, b).Done?)
  }

  ghost predicate AllSteady(scripts: Scripts, chain: seq<string>, origin: Db)
    requires forall i :: 0 <= i < |chain| ==> chain[i] in scripts
  {
    chain == [] ||
    (AllSteady(scripts, chain[1..], origin) &&
     var before := ExecuteAll(UpOps(scripts, chain[1..]), origin);
     before.Done? && Steady(scripts[chain[0]], before.value))
  }

  lemma {:induction false} SteadyIsInstalled(scripts: Scripts, chain: seq<string>, origin: Db)
    requires forall i :: 0 <= i < |chain| ==> chain[i] in scripts
    requires AllSteady(scripts, chain, origin)
    ensures Installed(scripts, chain, origin) && ExecuteAll(UpOps(scripts, chain), origin).Done?
  {
    if chain != [] {
      SteadyIsInstalled(scripts, chain[1..], origin);
      ExecuteSplit(UpOps(scripts, chain[1..]), scripts[chain[0]].upgrade, origin);
    }
  }

  /** Down the chain and up again runs through. */
  lemma {:induction false} SteadyRuns(scripts: Scripts, chain: seq<string>, origin: Db, db: Db)
    requires forall i :: 0 <= i < |chain| ==> chain[i] in scripts
    requires AllSteady(scripts, chain, origin) && ExecuteAll(UpOps(scripts, chain), origin).Done?
    requires Sound(db) && SameSchema(db, ExecuteAll(UpOps(scripts, chain), origin).value)
    ensures var down := ExecuteAll(DownOps(scripts, chain), db);
      && down.Done? && Sound(down.value) && SameSchema(down.value, origin)
      && ExecuteAll(UpOps(scripts, chain), down.value).Done?
  {
    if chain != [] {
      var s, rest := scripts[chain[0]], chain[1..];
      ExecuteSplit(UpOps(scripts, rest), s.upgrade, origin);
      var before := ExecuteAll(UpOps(scripts, rest), origin).value;
      BlindRun(s.downgrade, db, ExecuteAll(s.upgrade, before).value);
      MigrationKeepsSound(s.downgrade, db);
      var db1 := ExecuteAll(s.downgrade, db).value;
      SteadyRuns(scripts, rest, origin, db1);
      ExecuteSplit(s.downgrade, DownOps(scripts, rest), db);
      var down := ExecuteAll(DownOps(scripts, rest), db1).value;
      MigrationSchema(UpOps(scripts, rest), down, origin);
      MigrationKeepsSound(UpOps(scripts, rest), down);
      ExecuteSplit(UpOps(scripts, rest), s.upgrade, down);
    }
  }

  /** A replay over steady revisions always ends well, over any rows. */
  lemma SteadyReplays(scripts: Scripts, line: seq<string>, steps: int, origin: Db, db: Db)
    requires Linear(scripts, line) && 1 <= steps && 1 < |line|
    requires AllSteady(scripts, line[..Walked(line, steps)], origin)
    requires ExecuteAll(UpOps(scripts, line[..Walked(line, steps)]), origin).Done?
    requires Sound(db) && SameSchema(db, ExecuteAll(UpOps(scripts, line[..Walked(line, steps)]), origin).value)
    ensures var end := EndOf(scripts, line, steps, db);
      end.verdict == Replayed && SameSchema(end.tables, db) && end.version == Some(line[0])
  {
    var chain := line[..Walked(line, steps)];
    SteadyIsInstalled(scripts, chain, origin);
    InstalledIsRedone(scripts, chain, origin, db);
    ReplayIdentity(scripts, line, steps, db);
    SteadyRuns(scripts, chain, origin, db);
  }

  // ---- the two revisions ----

  /** Changes whose downgrade only drops. */
  predicate DropsOnly(c: Change) {
    c.AddedIndex? || c.AddedColumn? || c.Backfilled?
  }

  lemma {:induction false} DownsBlind(changes: seq<Change>, table: TableName)
    requires forall i :: 0 <= i < |changes| ==> DropsOnly(changes[i])
    ensures forall i :: 0 <= i < |Downs(changes)| ==> RowBlind(On(table, Downs(changes)[i]))
  {
    if changes != [] { DownsBlind(changes[1..], table); }
  }

  lemma {:induction false} DowngradeBlind(groups: seq<Group>)
    requires forall i, j :: 0 <= i < |groups| && 0 <= j < |groups[i].changes| ==> DropsOnly(groups[i].changes[j])
    ensures forall i :: 0 <= i < |Downgrade(groups)| ==> RowBlind(Downgrade(groups)[i])
  {
    if groups != [] {
      DowngradeBlind(groups[1..]);
      DownsBlind(groups[0].changes, groups[0].table);
    }
  }

  lemma EmbeddingSteady(script: Script, before: Db)
    requires Makes(script, E.EMBEDDING)
    requires Sound(before) && ExecuteAll(script.upgrade, before).Done?
    ensures Steady(script, before)
  {
    E.EmbeddingUndone(before);
    DowngradeBlind(E.EMBEDDING);
    forall b | Sound(b) && SameSchema(b, before) ensures ExecuteAll(Upgrade(E.EMBEDDING), b).Done? {
      E.EmbeddingRunsExactly(before);
      assert SchemaOf(b[MemoryNodes]) == SchemaOf(before[MemoryNodes]);
      E.EmbeddingRunsExactly(b);
    }
  }

  lemma IdempotencySteady(script: Script, before: Db)
    requires Makes(script, I.IDEMPOTENCY)
    requires Sound(before) && ExecuteAll(script.upgrade, before).Done?
    ensures Steady(script, before)
  {
    I.IdempotencyUndone(before);
    IdempotencyBlind();
    forall b | Sound(b) && SameSchema(b, before) ensures ExecuteAll(script.upgrade, b).Done? {
      IdempotencyAgain(before, b);
    }
  }

  lemma IdempotencyBlind()
    ensures AllBlind(Downgrade(I.IDEMPOTENCY))
  {
    DowngradeBlind(I.IDEMPOTENCY);
  }

  lemma IdempotencyAgain(before: Db, b: Db)
    requires ExecuteAll(Upgrade(I.IDEMPOTENCY), before).Done? && SameSchema(b, before)
    ensures ExecuteAll(Upgrade(I.IDEMPOTENCY), b).Done?
  {
    I.IdempotencyRunsExactly(before);
    I.IdempotencyRunsExactly(b);
    assert SchemaOf(b[FreelanceOrders]) == SchemaOf(before[FreelanceOrders]);
  }

  lemma TwoUp(scripts: Scripts, newer: string, older: string)
    requires newer in scripts && older in scripts
    ensures UpOps(scripts, [newer, older]) == scripts[older].upgrade + scripts[newer].upgrade
  {
    assert [newer, older][1..] == [older];
    OneOps(scripts, older);
  }

  lemma OneSteady(scripts: Scripts, rev: string, origin: Db)
    requires rev in scripts && Steady(scripts[rev], origin)
    ensures AllSteady(scripts, [rev], origin)
  {
    assert [rev][1..] == [];
    assert ExecuteAll(UpOps(scripts, []), origin) == Done(origin);
  }

  lemma TwoSteady(scripts: Scripts, newer: string, older: string, origin: Db)
    requires newer in scripts && older in scripts && Steady(scripts[older], origin)
    requires Steady(scripts[newer], ExecuteAll(scripts[older].upgrade, origin).value)
    ensures AllSteady(scripts, [newer, older], origin)
  {
    assert [newer, older][1..] == [older];
    OneSteady(scripts, older, origin);
    OneOps(scripts, older);
  }

  /** The newest revision alone, over steady ground. */
  lemma OneReplay(scripts: Scripts, line: seq<string>, origin: Db, db: Db)
    requires Linear(scripts, line) && 1 < |line| && Steady(scripts[line[0]], origin)
    requires Sound(db) && SameSchema(db, ExecuteAll(scripts[line[0]].upgrade, origin).value)
    ensures var end := EndOf(scripts, line, 1, db);
      end.verdict == Replayed && SameSchema(end.tables, db) && end.version == Some(line[0])
  {
    assert line[..1] == [line[0]];
    OneOps(scripts, line[0]);
    OneSteady(scripts, line[0], origin);
    SteadyReplays(scripts, line, 1, origin, db);
  }

  lemma TwoUpRun(scripts: Scripts, newer: string, older: string, origin: Db, middle: Db)
    requires newer in scripts && older in scripts && ExecuteAll(scripts[older].upgrade, origin) == Done(middle)
    ensures ExecuteAll(UpOps(scripts, [newer, older]), origin) == ExecuteAll(scripts[newer].upgrade, middle)
  {
    TwoUp(scripts, newer, older);
    ExecuteSplit(scripts[older].upgrade, scripts[newer].upgrade, origin);
  }

  /** The two newest revisions. */
  lemma TwoReplay(scripts: Scripts, line: seq<string>, origin: Db, middle: Db, db: Db)
    requires Linear(scripts, line) && 2 < |line|
    requires Steady(scripts[line[1]], origin) && ExecuteAll(scripts[line[1]].upgrade, origin) == Done(middle)
    requires Steady(scripts[line[0]], middle)
    requires Sound(db) && SameSchema(db, ExecuteAll(scripts[line[0]].upgrade, middle).value)
    ensures var end := EndOf(scripts, line, 2, db);
      end.verdict == Replayed && SameSchema(end.tables, db) && end.version == Some(line[0])
  {
    assert line[..2] == [line[0], line[1]];
    TwoUpRun(scripts, line[0], line[1], origin, middle);
    TwoSteady(scripts, line[0], line[1], origin);
    SteadyReplays(scripts, line, 2, origin, db);
  }

  lemma OneOrTwoReplay(scripts: Scripts, line: seq<string>, steps: int, origin: Db, middle: Db, db: Db)
    requires Linear(scripts, line) && 2 < |line| && 1 <= steps <= 2
    requires Steady(scripts[line[1]], origin) && ExecuteAll(scripts[line[1]].upgrade, origin) == Done(middle)
    requires Steady(scripts[line[0]], middle)
    requires Sound(db) && SameSchema(db, ExecuteAll(scripts[line[0]].upgrade, middle).value)
    ensures var end := EndOf(scripts, line, steps, db);
      end.verdict == Replayed && SameSchema(end.tables, db) && end.version == Some(line[0])
  {
    if steps == 1 {
      OneReplay(scripts, line, middle, db);
    } else {
      TwoReplay(scripts, line, origin, middle, db);
    }
  }

  /** The line has the two revisions at its head, above at least one other. */
  ghost predicate PairAtHead(scripts: Scripts, line: seq<string>) {
    && Linear(scripts, line) && 2 < |line|
    && Makes(scripts[line[0]], I.IDEMPOTENCY) && Makes(scripts[line[1]], E.EMBEDDING)
  }

  /** Replaying one or both revisions over a database they were installed in ends with the
      schema unchanged, whatever rows came, went or changed since. */
  lemma PairReplays(scripts: Scripts, line: seq<string>, steps: int, origin: Db, db: Db)
    requires PairAtHead(scripts, line) && 1 <= steps <= 2
    requires Sound(origin) && ExecuteAll(Upgrade(E.EMBEDDING) + Upgrade(I.IDEMPOTENCY), origin).Done?
    requires Sound(db) && SameSchema(db, ExecuteAll(Upgrade(E.EMBEDDING) + Upgrade(I.IDEMPOTENCY), origin).value)
    ensures var end := EndOf(scripts, line, steps, db);
      end.verdict == Replayed && SameSchema(end.tables, db) && end.version == Some(line[0])
  {
    ExecuteSplit(Upgrade(E.EMBEDDING), Upgrade(I.IDEMPOTENCY), origin);
    var middle := ExecuteAll(Upgrade(E.EMBEDDING), origin).value;
    MigrationKeepsSound(Upgrade(E.EMBEDDING), origin);
    EmbeddingSteady(scripts[line[1]], origin);
    IdempotencySteady(scripts[line[0]], middle);
    OneOrTwoReplay(scripts, line, steps, origin, middle, db);
  }

  // ---- damage a replay does not see ----

  const LOSSY: Scripts := map[
    "b" := Script(Some("a"), [], [On(Tasks, AlterDefault("status", None))]),
    "a" := Script(None, [], [])
  ]

  const WITH_DEFAULT: Db := map[Tasks := Table(map["status" := Column("VARCHAR", true, Some(Text("open")))], map[], map[], [])]

  const LOSSY_LINE := ["b", "a"]
  const LOSS := On(Tasks, AlterDefault("status", None))
  const WITHOUT_DEFAULT: Db := map[Tasks := Table(map["status" := Column("VARCHAR", true, None)], map[], map[], [])]

  lemma LossyLinear()
    ensures Linear(LOSSY, LOSSY_LINE)
    ensures LOSSY["b"] == Script(Some("a"), [], [LOSS])
  {
    assert "b" != "a" by { assert "b"[0] != "a"[0]; }
  }

  lemma LossRuns()
    ensures ExecuteAll([LOSS], WITH_DEFAULT) == Done(WITHOUT_DEFAULT)
    ensures ExecuteAll([], WITHOUT_DEFAULT) == Done(WITHOUT_DEFAULT)
  {
    ExecuteOne(LOSS, WITH_DEFAULT);
    assert Execute(LOSS, WITH_DEFAULT).value[Tasks].columns == WITHOUT_DEFAULT[Tasks].columns;
    assert Execute(LOSS, WITH_DEFAULT).value == WITHOUT_DEFAULT;
  }

  lemma LossUnseen()
    ensures Snapshot(WITHOUT_DEFAULT) == Snapshot(WITH_DEFAULT) && !SameSchema(WITHOUT_DEFAULT, WITH_DEFAULT)
  {
    var t, u := WITHOUT_DEFAULT[Tasks], WITH_DEFAULT[Tasks];
    assert Viewed(t).columns == Viewed(u).columns;
    assert t.columns["status"] != u.columns["status"];
    assert SchemaOf(t) != SchemaOf(u);
  }

  /** A downgrade that loses a column's default, and an upgrade that does not put it back,
      pass as an identical schema. */
  lemma LostDefaultGoesUnseen()
    ensures Linear(LOSSY, LOSSY_LINE)
    ensures var end := EndOf(LOSSY, LOSSY_LINE, 1, WITH_DEFAULT);
      end.verdict == Replayed && !SameSchema(end.tables, WITH_DEFAULT)
  {
    LossyLinear();
    LossRuns();
    LossUnseen();
    OneStepEnd(LOSSY, LOSSY_LINE, WITH_DEFAULT);
  }
}
