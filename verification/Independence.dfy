/** Revisions whose changes do not get in each other's way: it is enough to look at the
    database before the upgrade to know that it runs and that it can be undone. */
module Independence {
  import opened Schema
  import opened Changes
  import opened Databases
  import opened Revisions

  /** A named part of a table that a change looks at and alters. */
  datatype Slot = ColumnSlot(name: string) | IndexSlot(name: string) | ConstraintSlot(name: string)

  function Slots(c: Change): set<Slot> {
    match c
    case Enforce(column) => {ColumnSlot(column)}
    case Relax(column) => {ColumnSlot(column)}
    case Retype(column, _, _) => {ColumnSlot(column)}
    case AddedIndex(name, _) => {IndexSlot(name)}
    case RemovedIndex(name, _) => {IndexSlot(name)}
    case RemovedConstraint(name, _) => {ConstraintSlot(name)}
    case RenamedIndex(name, newName) => {IndexSlot(name), IndexSlot(newName)}
    case MergedUnique(constraint, index, _) => {ConstraintSlot(constraint), IndexSlot(index)}
    case AddedColumn(column, _) => {ColumnSlot(column)}
    case Backfilled(column, _, index) => {ColumnSlot(column), IndexSlot(index)}
  }

  /** Changes of separate slots, none of which adds a column. */
  ghost predicate Separate(changes: seq<Change>) {
    && (forall i :: 0 <= i < |changes| ==> KeepsColumns(changes[i]))
    && (forall i, j :: 0 <= i < j < |changes| ==> Slots(changes[i]) !! Slots(changes[j]))
  }

  /** Outside the slots nothing changed. */
  ghost predicate SameElsewhere(t: Table, t': Table, slots: set<Slot>) {
    && t'.rows == t.rows && t'.columns.Keys == t.columns.Keys
    && (forall k :: k in t.columns && ColumnSlot(k) !in slots ==> t'.columns[k] == t.columns[k])
    && (forall k :: IndexSlot(k) !in slots ==> (k in t.indexes <==> k in t'.indexes))
    && (forall k :: IndexSlot(k) !in slots && k in t.indexes ==> t'.indexes[k] == t.indexes[k])
    && (forall k :: ConstraintSlot(k) !in slots ==> (k in t.constraints <==> k in t'.constraints))
    && (forall k :: ConstraintSlot(k) !in slots && k in t.constraints ==> t'.constraints[k] == t.constraints[k])
  }

  lemma UpStaysInSlots(c: Change, t: Table)
    requires KeepsColumns(c) && ApplyAll(Up(c), t).Done?
    ensures SameElsewhere(t, ApplyAll(Up(c), t).value, Slots(c))
  {
    Unroll(c, t);
    if c.MergedUnique? {
      MergedUp(c.constraintName, c.indexName, c.column, t);
    } else if c.Enforce? {
      AlterStays(Up(c)[1], t);
    } else if c.Relax? || c.Retype? {
      AlterStays(Up(c)[0], t);
    } else {
      RuleOpStays(Up(c)[0], t);
    }
  }

  lemma AlterStays(op: TableOp, t: Table)
    requires (op.AlterNullable? || op.AlterType?) && Apply(op, t).Done?
    ensures SameElsewhere(t, Apply(op, t).value, {ColumnSlot(op.column)})
  {}

  function OpSlots(op: TableOp): set<Slot> {
    match op
    case CreateIndex(name, _) => {IndexSlot(name)}
    case DropIndex(name) => {IndexSlot(name)}
    case RenameIndexIfExists(name, newName) => {IndexSlot(name), IndexSlot(newName)}
    case AddConstraint(name, _) => {ConstraintSlot(name)}
    case DropConstraint(name) => {ConstraintSlot(name)}
    case _ => {}
  }

  lemma RuleOpStays(op: TableOp, t: Table)
    requires op.CreateIndex? || op.DropIndex? || op.RenameIndexIfExists? || op.AddConstraint? || op.DropConstraint?
    requires Apply(op, t).Done?
    ensures SameElsewhere(t, Apply(op, t).value, OpSlots(op))
  {}

  /** The operations of the upgrade exist for the table: what a new index is over is there
      and satisfies it, and a rename does not hit a taken name. */
  ghost predicate Placed(c: Change, t: Table) {
    match c
    case AddedIndex(_, index) => IndexColumns(index) <= t.columns.Keys && IndexHolds(index, t.rows)
    case RenamedIndex(name, newName) => !(name in t.indexes && newName in t.indexes)
    case _ => true
  }

  lemma OthersUnaffected(c: Change, d: Change, t: Table)
    requires KeepsColumns(c) && KeepsColumns(d) && Slots(c) !! Slots(d) && ApplyAll(Up(c), t).Done?
    ensures var t' := ApplyAll(Up(c), t).value;
      (Pre(d, t) ==> Pre(d, t')) && (Placed(d, t) ==> Placed(d, t')) && t'.rows == t.rows
  {
    UpStaysInSlots(c, t);
    assert forall s :: s in Slots(d) ==> s !in Slots(c);
  }

  /** A change that finds the table as expected runs, unless its guard finds NULLs. */
  lemma UpRunsExactly(c: Change, t: Table)
    requires KeepsColumns(c) && WellFormed(t) && Pre(c, t) && Placed(c, t)
    ensures ApplyAll(Up(c), t).Done? <==> (c.Enforce? ==> NoNulls(t.rows, c.column))
    ensures ApplyAll(Up(c), t).Failed? ==> c.Enforce? && ApplyAll(Up(c), t).error == NullsFound(CountNulls(t.rows, c.column))
  {
    Unroll(c, t);
    match c
    case Enforce(column) => GuardedEnforceNeverRejected(column, t);
    case MergedUnique(constraint, index, column) => MergedRuns(constraint, index, column, t);
    case _ =>
  }

  lemma MergedRuns(constraint: string, index: string, column: string, t: Table)
    requires WellFormed(t) && Pre(MergedUnique(constraint, index, column), t)
    ensures ApplyAll(Up(MergedUnique(constraint, index, column)), t).Done?
  {
    var ops := Up(MergedUnique(constraint, index, column));
    ApplyThree(ops[0], ops[1], ops[2], t);
    var t1 := Apply(ops[0], t).value;
    ApplyTwo(ops[1], ops[2], t1);
    SameUniqueness(column, t.rows);
    assert IndexColumns(t.indexes[index]) == {column};
    assert IndexColumns(UniqueIndex(column)) == {column};
  }

  ghost predicate Ready(changes: seq<Change>, t: Table) {
    forall i :: 0 <= i < |changes| ==> Pre(changes[i], t) && Placed(changes[i], t)
  }

  ghost predicate Guarded(changes: seq<Change>, t: Table) {
    forall i :: 0 <= i < |changes| && changes[i].Enforce? ==> NoNulls(t.rows, changes[i].column)
  }

  /** Separate changes that all find the table as expected run in sequence exactly when no
      guarded column holds a NULL, and otherwise stop at a guard; each still finds the
      table as expected when its turn comes. */
  lemma {:induction false} SeparateRuns(changes: seq<Change>, t: Table)
    requires WellFormed(t) && Separate(changes) && Ready(changes, t)
    ensures PreAll(changes, t)
    ensures ApplyAll(Ups(changes), t).Done? <==> Guarded(changes, t)
    ensures ApplyAll(Ups(changes), t).Failed? ==> ApplyAll(Ups(changes), t).error.NullsFound?
  {
    if changes != [] {
      var c, rest := changes[0], changes[1..];
      ApplySplit(Up(c), Ups(rest), t);
      UpRunsExactly(c, t);
      if ApplyAll(Up(c), t).Done? {
        var t1 := ApplyAll(Up(c), t).value;
        RunKeepsWellFormed(Up(c), t);
        assert forall i :: 0 <= i < |rest| ==> rest[i] == changes[i + 1];
        forall i | 0 <= i < |rest| ensures Pre(rest[i], t1) && Placed(rest[i], t1) {
          assert Slots(changes[0]) !! Slots(changes[i + 1]);
          OthersUnaffected(c, rest[i], t);
        }
        UpStaysInSlots(c, t);
        SeparateRuns(rest, t1);
        GuardedTail(changes, t, t1);
      } else {
        assert !Guarded(changes, t);
      }
    }
  }

  lemma GuardedTail(changes: seq<Change>, t: Table, t1: Table)
    requires changes != [] && t1.rows == t.rows && (changes[0].Enforce? ==> NoNulls(t.rows, changes[0].column))
    ensures Guarded(changes, t) <==> Guarded(changes[1..], t1)
  {
    var rest := changes[1..];
    assert forall i :: 0 <= i < |rest| ==> rest[i] == changes[i + 1];
    if Guarded(rest, t1) {
      forall i | 0 <= i < |changes| && changes[i].Enforce? ensures NoNulls(t.rows, changes[i].column) {
        if i > 0 { assert rest[i - 1] == changes[i]; }
      }
    }
  }

  // ---- groups over separate tables ----

  ghost predicate DistinctTables(groups: seq<Group>) {
    forall i, j :: 0 <= i < j < |groups| ==> groups[i].table != groups[j].table
  }

  lemma DistinctTail(groups: seq<Group>)
    requires groups != [] && DistinctTables(groups)
    ensures DistinctTables(groups[1..])
    ensures forall i :: 0 <= i < |groups[1..]| ==> groups[1..][i] == groups[i + 1] && groups[i + 1].table != groups[0].table
  {
    var rest := groups[1..];
    forall i, j | 0 <= i < j < |rest| ensures rest[i].table != rest[j].table {
      assert groups[i + 1].table != groups[j + 1].table;
    }
    forall i | 0 <= i < |rest| ensures rest[i] == groups[i + 1] && groups[i + 1].table != groups[0].table {}
  }

  ghost predicate AllPre(groups: seq<Group>, db: Db) {
    forall i :: 0 <= i < |groups| ==> GroupPre(groups[i], db)
  }

  /** Groups over distinct tables need only be looked at before the upgrade. */
  lemma {:induction false} PreFromStart(groups: seq<Group>, db: Db)
    requires DistinctTables(groups) && AllPre(groups, db)
    ensures RevisionPre(groups, db)
  {
    if groups != [] {
      var g, rest := groups[0], groups[1..];
      assert GroupPre(g, db);
      if ExecuteAll(GroupUp(g), db).Done? {
        GroupUpRan(g, db);
        var db1 := ExecuteAll(GroupUp(g), db).value;
        DistinctTail(groups);
        forall i | 0 <= i < |rest| ensures GroupPre(rest[i], db1) {
          assert rest[i] == groups[i + 1] && GroupPre(groups[i + 1], db);
        }
        PreFromStart(rest, db1);
      }
    }
  }

  ghost predicate GroupReady(g: Group, db: Db) {
    g.Alter? && g.table in db && Separate(g.changes) && Ready(g.changes, db[g.table])
  }

  ghost predicate AllReady(groups: seq<Group>, db: Db) {
    forall i :: 0 <= i < |groups| ==> GroupReady(groups[i], db)
  }

  /** No guarded column of any group holds a NULL. */
  ghost predicate AllGuarded(groups: seq<Group>, db: Db)
    requires AllReady(groups, db)
  {
    forall i :: 0 <= i < |groups| ==>
      assert GroupReady(groups[i], db);
      Guarded(groups[i].changes, db[groups[i].table])
  }

  lemma ReadyIsPre(groups: seq<Group>, db: Db)
    requires Sound(db) && AllReady(groups, db)
    ensures AllPre(groups, db)
  {
    forall i | 0 <= i < |groups| ensures GroupPre(groups[i], db) {
      assert GroupReady(groups[i], db);
      SeparateRuns(groups[i].changes, db[groups[i].table]);
    }
  }

  /** The whole upgrade runs exactly when no guarded column holds a NULL; otherwise a guard
      stops it, never the database. */
  lemma {:induction false} UpgradeRunsExactly(groups: seq<Group>, db: Db)
    requires Sound(db) && DistinctTables(groups) && AllReady(groups, db)
    ensures ExecuteAll(Upgrade(groups), db).Done? <==> AllGuarded(groups, db)
    ensures ExecuteAll(Upgrade(groups), db).Failed? ==> ExecuteAll(Upgrade(groups), db).error.NullsFound?
  {
    if groups != [] {
      var g, rest := groups[0], groups[1..];
      assert GroupReady(g, db);
      ExecuteSplit(GroupUp(g), Upgrade(rest), db);
      SeparateRuns(g.changes, db[g.table]);
      AlterRuns(g, db);
      if ExecuteAll(GroupUp(g), db).Done? {
        var db1 := ExecuteAll(GroupUp(g), db).value;
        MigrationKeepsSound(GroupUp(g), db);
        RestReady(groups, db, db1);
        UpgradeRunsExactly(rest, db1);
      } else {
        assert !Guarded(groups[0].changes, db[groups[0].table]);
      }
    }
  }

  lemma {:induction false} UpsLocal(changes: seq<Change>)
    requires forall i :: 0 <= i < |changes| ==> !changes[i].Backfilled?
    ensures forall i :: 0 <= i < |Ups(changes)| ==> Local(Ups(changes)[i])
  {
    if changes != [] { UpsLocal(changes[1..]); }
  }

  lemma AlterRuns(g: Group, db: Db)
    requires g.Alter? && g.table in db && forall i :: 0 <= i < |g.changes| ==> !g.changes[i].Backfilled?
    ensures ExecuteAll(GroupUp(g), db) == OnTable(ApplyAll(Ups(g.changes), db[g.table]), g.table, db)
  {
    assert GroupUp(g) == OnAll(g.table, Ups(g.changes));
    UpsLocal(g.changes);
    LocalSmooth(Ups(g.changes), g.table, db);
    OneTable(g.table, Ups(g.changes), db);
  }

  lemma RestReady(groups: seq<Group>, db: Db, db1: Db)
    requires groups != [] && DistinctTables(groups) && AllReady(groups, db)
    requires groups[0].table in db && db1.Keys == db.Keys && forall t :: t in db && t != groups[0].table ==> db1[t] == db[t]
    requires Guarded(groups[0].changes, db[groups[0].table])
    ensures DistinctTables(groups[1..]) && AllReady(groups[1..], db1)
    ensures AllGuarded(groups, db) <==> AllGuarded(groups[1..], db1)
  {
    var rest := groups[1..];
    DistinctTail(groups);
    forall i | 0 <= i < |rest| ensures GroupReady(rest[i], db1) && db1[rest[i].table] == db[rest[i].table] {
      assert GroupReady(groups[i + 1], db);
    }
    if AllGuarded(rest, db1) {
      forall i | 0 <= i < |groups| ensures Guarded(groups[i].changes, db[groups[i].table]) {
        if i > 0 { assert rest[i - 1] == groups[i] && Guarded(rest[i - 1].changes, db1[rest[i - 1].table]); }
      }
    }
    if AllGuarded(groups, db) {
      forall i | 0 <= i < |rest| ensures Guarded(rest[i].changes, db1[rest[i].table]) {
        assert rest[i] == groups[i + 1] && Guarded(groups[i + 1].changes, db[groups[i + 1].table]);
      }
    }
  }

  // ---- groups that create their table ----

  /** The statement that creates the table is well formed, and so are the changes after it. */
  ghost predicate Creatable(g: Group) {
    && g.Create? && Declarable(g.columns, g.constraints)
    && Separate(g.changes) && Ready(g.changes, Fresh(g))
    && (forall i :: 0 <= i < |g.changes| ==> !g.changes[i].Enforce?)
  }

  lemma CreateRuns(g: Group, db: Db)
    requires Creatable(g)
    ensures PreAll(g.changes, Fresh(g)) && ApplyAll(Ups(g.changes), Fresh(g)).Done?
    ensures ExecuteAll(GroupUp(g), db).Done? <==> g.table !in db && AllResolve(g.constraints, db[g.table := Fresh(g)])
    ensures ExecuteAll(GroupUp(g), db).Done? ==>
      ExecuteAll(GroupUp(g), db).value == db[g.table := ApplyAll(Ups(g.changes), Fresh(g)).value]
  {
    SeparateRuns(g.changes, Fresh(g));
    var create := CreateTable(g.table, g.columns, g.constraints);
    ExecuteSplit([create], OnAll(g.table, Ups(g.changes)), db);
    ExecuteOne(create, db);
    var db0 := db[g.table := Fresh(g)];
    UpsLocal(g.changes);
    LocalSmooth(Ups(g.changes), g.table, db0);
    OneTable(g.table, Ups(g.changes), db0);
    PutAgain(db, g.table, Fresh(g), ApplyAll(Ups(g.changes), Fresh(g)).value);
  }

  predicate Within(columns: seq<string>, keys: set<string>) {
    forall i :: 0 <= i < |columns| ==> columns[i] in keys
  }

  predicate CreatesFor(g: Group, fk: Constraint)
    requires fk.ForeignKey?
  {
    g.Create? && g.table == fk.refTable && Within(fk.refColumns, g.columns.Keys)
  }

  /** What the foreign key refers to is in the database, or is created by one of the groups. */
  ghost predicate Offered(fk: Constraint, db: Db, groups: seq<Group>)
    requires fk.ForeignKey?
  {
    && |fk.columns| == |fk.refColumns|
    && ((fk.refTable in db && Within(fk.refColumns, db[fk.refTable].columns.Keys))
        || exists j :: 0 <= j < |groups| && CreatesFor(groups[j], fk))
  }

  /** Group `i` can be created: its table is not there, and what it refers to is by then. */
  ghost predicate Due(groups: seq<Group>, i: int, db: Db)
    requires 0 <= i < |groups|
  {
    var g := groups[i];
    g.Create? && g.table !in db &&
    forall n :: n in g.constraints && g.constraints[n].ForeignKey? ==> Offered(g.constraints[n], db, groups[..i + 1])
  }

  lemma FirstDue(groups: seq<Group>, db: Db)
    requires groups != [] && groups[0].Create?
    ensures var g := groups[0];
      Due(groups, 0, db) <==> g.table !in db && AllResolve(g.constraints, db[g.table := Fresh(g)])
  {
    var g := groups[0];
    if g.table !in db {
      forall n | n in g.constraints && g.constraints[n].ForeignKey?
        ensures Offered(g.constraints[n], db, groups[..1]) <==> Resolves(g.constraints[n], db[g.table := Fresh(g)])
      {
        if g.constraints[n].refTable == g.table { assert groups[..1][0] == g; }
      }
    }
  }

  /** Once the first group's table is there, it is offered by the database. */
  lemma OfferedLater(fk: Constraint, g: Group, rest: seq<Group>, db: Db, t: Table)
    requires fk.ForeignKey? && g.Create? && g.table !in db && t.columns.Keys == g.columns.Keys
    ensures Offered(fk, db[g.table := t], rest) <==> Offered(fk, db, [g] + rest)
  {
    var groups := [g] + rest;
    assert groups[0] == g;
    if j :| 0 <= j < |rest| && CreatesFor(rest[j], fk) { assert groups[j + 1] == rest[j]; }
    if j :| 0 <= j < |groups| && CreatesFor(groups[j], fk) {
      if j > 0 { assert rest[j - 1] == groups[j]; }
    }
  }

  lemma RestDue(groups: seq<Group>, i: nat, db: Db, t: Table)
    requires DistinctTables(groups) && i < |groups| - 1 && groups[0].Create?
    requires groups[0].table !in db && t.columns.Keys == groups[0].columns.Keys
    ensures Due(groups[1..], i, db[groups[0].table := t]) <==> Due(groups, i + 1, db)
  {
    var g := groups[1..][i];
    assert [groups[0]] + groups[1..][..i + 1] == groups[..i + 2];
    if g.Create? {
      forall n | n in g.constraints && g.constraints[n].ForeignKey?
        ensures Offered(g.constraints[n], db[groups[0].table := t], groups[1..][..i + 1]) <==> Offered(g.constraints[n], db, groups[..i + 2])
      {
        OfferedLater(g.constraints[n], groups[0], groups[1..][..i + 1], db, t);
      }
    }
  }

  ghost predicate AllDue(groups: seq<Group>, db: Db) {
    forall i :: 0 <= i < |groups| ==> Due(groups, i, db)
  }

  lemma DueAfterFirst(groups: seq<Group>, db: Db, t: Table)
    requires DistinctTables(groups) && groups != [] && groups[0].Create? && Due(groups, 0, db)
    requires t.columns.Keys == groups[0].columns.Keys
    ensures AllDue(groups, db) <==> AllDue(groups[1..], db[groups[0].table := t])
  {
    var rest, db1 := groups[1..], db[groups[0].table := t];
    if AllDue(groups, db) {
      forall i | 0 <= i < |rest| ensures Due(rest, i, db1) { RestDue(groups, i, db, t); }
    }
    if AllDue(rest, db1) {
      forall i | 0 <= i < |groups| ensures Due(groups, i, db) {
        if i > 0 { RestDue(groups, i - 1, db, t); }
      }
    }
  }

  /** A run of such groups succeeds exactly when none of their tables exists and everything
      they refer to does, or has been created before. */
  lemma {:induction false} CreatesRunExactly(groups: seq<Group>, db: Db)
    requires DistinctTables(groups) && forall i :: 0 <= i < |groups| ==> Creatable(groups[i])
    ensures ExecuteAll(Upgrade(groups), db).Done? <==> AllDue(groups, db)
  {
    if groups != [] {
      var g, rest := groups[0], groups[1..];
      ExecuteSplit(GroupUp(g), Upgrade(rest), db);
      CreateRuns(g, db);
      FirstDue(groups, db);
      if ExecuteAll(GroupUp(g), db).Done? {
        DistinctTail(groups);
        var t := ApplyAll(Ups(g.changes), Fresh(g)).value;
        ChangesKeepRows(g.changes, Fresh(g));
        CreatesRunExactly(rest, db[g.table := t]);
        DueAfterFirst(groups, db, t);
      } else {
        assert !Due(groups, 0, db);
      }
    }
  }

  // ---- what an upgrade leaves alone ----

  ghost predicate AddNoColumn(changes: seq<Change>) {
    forall i :: 0 <= i < |changes| ==> KeepsColumns(changes[i])
  }

  lemma {:induction false} ChangesKeepRows(changes: seq<Change>, t: Table)
    requires AddNoColumn(changes) && ApplyAll(Ups(changes), t).Done?
    ensures ApplyAll(Ups(changes), t).value.rows == t.rows
    ensures ApplyAll(Ups(changes), t).value.columns.Keys == t.columns.Keys
  {
    if changes != [] {
      var c, rest := changes[0], changes[1..];
      ApplySplit(Up(c), Ups(rest), t);
      UpStaysInSlots(c, t);
      ChangesKeepRows(rest, ApplyAll(Up(c), t).value);
    }
  }

  /** Groups that only alter tables, and add no column, keep every row of every table, and
      all of every table that is not theirs. */
  lemma {:induction false} UpgradeKeepsRows(groups: seq<Group>, db: Db)
    requires forall i :: 0 <= i < |groups| ==> groups[i].Alter? && groups[i].table in db && AddNoColumn(groups[i].changes)
    requires ExecuteAll(Upgrade(groups), db).Done?
    ensures var after := ExecuteAll(Upgrade(groups), db).value;
      && after.Keys == db.Keys
      && (forall table :: table in db ==> after[table].rows == db[table].rows)
      && (forall table :: table in db && (forall i :: 0 <= i < |groups| ==> groups[i].table != table) ==> after[table] == db[table])
  {
    if groups != [] {
      var g, rest := groups[0], groups[1..];
      ExecuteSplit(GroupUp(g), Upgrade(rest), db);
      AlterRuns(g, db);
      ChangesKeepRows(g.changes, db[g.table]);
      UpgradeKeepsRows(rest, ExecuteAll(GroupUp(g), db).value);
    }
  }
}
