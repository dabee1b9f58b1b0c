/** When the downgrade of separate changes runs: unlike the upgrade, it restores NOT NULL
    without a guard in front of it. */
module Reversal {
  import opened Schema
  import opened Changes
  import opened Databases
  import opened Revisions
  import opened Independence

  lemma DownStaysInSlots(c: Change, t: Table)
    requires KeepsColumns(c) && ApplyAll(Down(c), t).Done?
    ensures SameElsewhere(t, ApplyAll(Down(c), t).value, Slots(c))
  {
    Unroll(c, t);
    if c.MergedUnique? {
      MergedDown(c.constraintName, c.indexName, c.column, t);
    } else if c.Enforce? || c.Relax? || c.Retype? {
      AlterStays(Down(c)[0], t);
    } else {
      RuleOpStays(Down(c)[0], t);
    }
  }

  lemma UpGivesPost(c: Change, t: Table)
    requires KeepsColumns(c) && Pre(c, t) && ApplyAll(Up(c), t).Done?
    ensures Post(c, ApplyAll(Up(c), t).value)
  {
    Unroll(c, t);
    match c
    case MergedUnique(constraint, index, column) => MergedUp(constraint, index, column, t);
    case _ =>
  }

  /** What the downgrade creates again is over columns that are there, and a rename back does
      not hit a taken name. */
  ghost predicate Replaceable(c: Change, t: Table) {
    match c
    case RemovedIndex(_, index) => IndexColumns(index) <= t.columns.Keys
    case RemovedConstraint(_, con) => ConstraintColumns(con) <= t.columns.Keys
    case RenamedIndex(name, newName) => !(name in t.indexes && newName in t.indexes)
    case _ => true
  }

  /** What the rows must satisfy for the change to be taken back. */
  ghost predicate Bearable(c: Change, table: TableName, db: Db)
    requires table in db
  {
    match c
    case Relax(column) => NoNulls(db[table].rows, column)
    case RemovedIndex(_, index) => IndexHolds(index, db[table].rows)
    case RemovedConstraint(_, con) =>
      if con.ForeignKey? then Honoured(con, db[table].rows, db) else ConstraintHolds(con, db[table].rows)
    case _ => true
  }

  lemma DownRunsExactly(c: Change, table: TableName, db: Db)
    requires KeepsColumns(c) && table in db && WellFormed(db[table]) && Post(c, db[table]) && Replaceable(c, db[table])
    ensures ExecuteAll(OnAll(table, Down(c)), db).Done? <==> Bearable(c, table, db)
    ensures ExecuteAll(OnAll(table, Down(c)), db).Failed? ==> ExecuteAll(OnAll(table, Down(c)), db).error == Rejected
  {
    if c.RemovedConstraint? {
      assert OnAll(table, Down(c)) == [On(table, Down(c)[0])];
      ExecuteOne(On(table, Down(c)[0]), db);
    } else {
      DownLocal(c);
      LocalSmooth(Down(c), table, db);
      OneTable(table, Down(c), db);
      LocalDownRuns(c, db[table]);
    }
  }

  lemma LocalDownRuns(c: Change, t: Table)
    requires KeepsColumns(c) && !c.RemovedConstraint? && WellFormed(t) && Post(c, t) && Replaceable(c, t)
    ensures ApplyAll(Down(c), t).Done? <==> (c.Relax? ==> NoNulls(t.rows, c.column)) && (c.RemovedIndex? ==> IndexHolds(c.index, t.rows))
    ensures ApplyAll(Down(c), t).Failed? ==> ApplyAll(Down(c), t).error == Rejected
  {
    Unroll(c, t);
    if c.MergedUnique? {
      MergedDown(c.constraintName, c.indexName, c.column, t);
      SameUniqueness(c.column, t.rows);
      assert c.column in IndexColumns(t.indexes[c.indexName]);
    }
  }

  ghost predicate Reversible(changes: seq<Change>, t: Table) {
    forall i :: 0 <= i < |changes| ==> Post(changes[i], t) && Replaceable(changes[i], t)
  }

  ghost predicate AllBearable(changes: seq<Change>, table: TableName, db: Db)
    requires table in db
  {
    forall i :: 0 <= i < |changes| ==> Bearable(changes[i], table, db)
  }

  lemma OthersStillReversible(c: Change, d: Change, t: Table)
    requires KeepsColumns(c) && KeepsColumns(d) && Slots(c) !! Slots(d) && ApplyAll(Down(c), t).Done?
    ensures var t' := ApplyAll(Down(c), t).value;
      (Post(d, t) ==> Post(d, t')) && (Replaceable(d, t) ==> Replaceable(d, t'))
  {
    DownStaysInSlots(c, t);
    assert forall s :: s in Slots(d) ==> s !in Slots(c);
  }

  /** The databases have the same rows under the same columns. */
  ghost predicate SameRows(a: Db, b: Db) {
    b.Keys == a.Keys && forall table :: table in a ==> b[table].rows == a[table].rows && b[table].columns.Keys == a[table].columns.Keys
  }

  lemma BearableSame(c: Change, table: TableName, db: Db, db': Db)
    requires SameRows(db, db') && table in db
    ensures Bearable(c, table, db') <==> Bearable(c, table, db)
  {}

  lemma AllBearableSame(changes: seq<Change>, table: TableName, db: Db, db': Db)
    requires SameRows(db, db') && table in db
    ensures AllBearable(changes, table, db') <==> AllBearable(changes, table, db)
  {
    forall i | 0 <= i < |changes| ensures Bearable(changes[i], table, db') <==> Bearable(changes[i], table, db) {
      BearableSame(changes[i], table, db, db');
    }
  }

  /** One change taken back keeps the rows, and the others are still reversible. */
  lemma LastTaken(changes: seq<Change>, table: TableName, db: Db) returns (db1: Db)
    requires changes != [] && table in db && WellFormed(db[table]) && Separate(changes) && Reversible(changes, db[table])
    requires ExecuteAll(OnAll(table, Down(changes[|changes| - 1])), db).Done?
    ensures ExecuteAll(OnAll(table, Down(changes[|changes| - 1])), db) == Done(db1) && SameRows(db, db1)
    ensures WellFormed(db1[table]) && Reversible(changes[..|changes| - 1], db1[table])
    ensures forall other :: other in db && other != table ==> db1[other] == db[other]
  {
    var front, last := changes[..|changes| - 1], changes[|changes| - 1];
    RanSmoothly(table, Down(last), db);
    OneTable(table, Down(last), db);
    var t1 := ApplyAll(Down(last), db[table]).value;
    db1 := db[table := t1];
    RunKeepsWellFormed(Down(last), db[table]);
    DownStaysInSlots(last, db[table]);
    forall i | 0 <= i < |front| ensures Post(front[i], t1) && Replaceable(front[i], t1) {
      assert Slots(changes[i]) !! Slots(changes[|changes| - 1]);
      OthersStillReversible(last, front[i], db[table]);
    }
  }

  lemma BearableFront(changes: seq<Change>, table: TableName, db: Db)
    requires changes != [] && table in db
    ensures AllBearable(changes, table, db) <==>
      AllBearable(changes[..|changes| - 1], table, db) && Bearable(changes[|changes| - 1], table, db)
  {
    var front := changes[..|changes| - 1];
    if AllBearable(changes, table, db) {
      forall i | 0 <= i < |front| ensures Bearable(front[i], table, db) { assert front[i] == changes[i]; }
    }
    if AllBearable(front, table, db) {
      forall i | 0 <= i < |changes| - 1 ensures Bearable(changes[i], table, db) { assert front[i] == changes[i]; }
    }
  }

  lemma DownsParts(changes: seq<Change>, table: TableName, db: Db)
    requires changes != []
    ensures ExecuteAll(OnAll(table, Downs(changes)), db) ==
      Followed(ExecuteAll(OnAll(table, Down(changes[|changes| - 1])), db), OnAll(table, Downs(changes[..|changes| - 1])))
  {
    var front, last := changes[..|changes| - 1], changes[|changes| - 1];
    assert changes == front + [last];
    DownsSnoc(front, last);
    OnAllJoin(table, Down(last), Downs(front));
    ExecuteSplit(OnAll(table, Down(last)), OnAll(table, Downs(front)), db);
  }

  /** What the downgrades of a table come to: they run exactly when the rows bear it, no row
      changes, and otherwise the database rejects it. */
  ghost predicate TakenBack(changes: seq<Change>, table: TableName, db: Db, after: Outcome<Db>)
    requires table in db
  {
    match after
    case Failed(e) => !AllBearable(changes, table, db) && e == Rejected
    case Done(b) => AllBearable(changes, table, db) && SameRows(db, b) && OnlyChanged(db, b, table)
  }

  ghost predicate OnlyChanged(a: Db, b: Db, table: TableName) {
    b.Keys == a.Keys && forall other :: other in a && other != table ==> b[other] == a[other]
  }

  lemma BackThrough(changes: seq<Change>, table: TableName, db: Db, db1: Db, after: Outcome<Db>)
    requires changes != [] && table in db && SameRows(db, db1) && OnlyChanged(db, db1, table)
    requires Bearable(changes[|changes| - 1], table, db) && TakenBack(changes[..|changes| - 1], table, db1, after)
    ensures TakenBack(changes, table, db, after)
  {
    BearableFront(changes, table, db);
    AllBearableSame(changes[..|changes| - 1], table, db, db1);
  }

  lemma {:induction false} SeparateDowns(changes: seq<Change>, table: TableName, db: Db)
    requires table in db && WellFormed(db[table]) && Separate(changes) && Reversible(changes, db[table])
    ensures TakenBack(changes, table, db, ExecuteAll(OnAll(table, Downs(changes)), db))
    decreases |changes|
  {
    if changes != [] {
      var front, last := changes[..|changes| - 1], changes[|changes| - 1];
      DownsParts(changes, table, db);
      DownRunsExactly(last, table, db);
      if ExecuteAll(OnAll(table, Down(last)), db).Done? {
        var db1 := LastTaken(changes, table, db);
        SeparateDowns(front, table, db1);
        BackThrough(changes, table, db, db1, ExecuteAll(OnAll(table, Downs(front)), db1));
      } else {
        BearableFront(changes, table, db);
      }
    }
  }

  // ---- after an upgrade ----

  lemma UpGivesReplaceable(c: Change, t: Table)
    requires KeepsColumns(c) && WellFormed(t) && Pre(c, t) && Placed(c, t) && ApplyAll(Up(c), t).Done?
    ensures Replaceable(c, ApplyAll(Up(c), t).value)
  {
    UpStaysInSlots(c, t);
    Unroll(c, t);
  }

  lemma OthersStayUpgraded(c: Change, d: Change, t: Table)
    requires KeepsColumns(c) && KeepsColumns(d) && Slots(c) !! Slots(d) && ApplyAll(Up(c), t).Done?
    requires Post(d, t) && Replaceable(d, t)
    ensures var t' := ApplyAll(Up(c), t).value; Post(d, t') && Replaceable(d, t')
  {
    UpStaysInSlots(c, t);
    assert forall s :: s in Slots(d) ==> s !in Slots(c);
  }

  lemma {:induction false} StaysUpgraded(changes: seq<Change>, d: Change, t: Table)
    requires KeepsColumns(d) && Post(d, t) && Replaceable(d, t) && ApplyAll(Ups(changes), t).Done?
    requires forall i :: 0 <= i < |changes| ==> KeepsColumns(changes[i]) && Slots(changes[i]) !! Slots(d)
    ensures var t' := ApplyAll(Ups(changes), t).value; Post(d, t') && Replaceable(d, t')
  {
    if changes != [] {
      var c, rest := changes[0], changes[1..];
      ApplySplit(Up(c), Ups(rest), t);
      OthersStayUpgraded(c, d, t);
      StaysUpgraded(rest, d, ApplyAll(Up(c), t).value);
    }
  }

  /** Once separate changes have been made, each can be taken back. */
  lemma {:induction false} UpsGiveReversible(changes: seq<Change>, t: Table)
    requires WellFormed(t) && Separate(changes) && Ready(changes, t) && ApplyAll(Ups(changes), t).Done?
    ensures Reversible(changes, ApplyAll(Ups(changes), t).value)
  {
    if changes != [] {
      var c, rest := changes[0], changes[1..];
      ApplySplit(Up(c), Ups(rest), t);
      var t1 := ApplyAll(Up(c), t).value;
      RunKeepsWellFormed(Up(c), t);
      assert forall i :: 0 <= i < |rest| ==> rest[i] == changes[i + 1];
      forall i | 0 <= i < |rest| ensures Slots(rest[i]) !! Slots(c) && Pre(rest[i], t1) && Placed(rest[i], t1) {
        assert Slots(changes[0]) !! Slots(changes[i + 1]);
        OthersUnaffected(c, rest[i], t);
      }
      UpGivesPost(c, t);
      UpGivesReplaceable(c, t);
      StaysUpgraded(rest, c, t1);
      UpsGiveReversible(rest, t1);
    }
  }

  // ---- groups ----

  ghost predicate GroupReversible(g: Group, db: Db) {
    g.Alter? && g.table in db && Separate(g.changes) && Reversible(g.changes, db[g.table])
  }

  ghost predicate AllReversible(groups: seq<Group>, db: Db) {
    forall i :: 0 <= i < |groups| ==> GroupReversible(groups[i], db)
  }

  lemma SameSchemaReversible(groups: seq<Group>, db: Db, b: Db)
    requires AllReversible(groups, db) && SameSchema(b, db)
    ensures AllReversible(groups, b)
  {
    forall i | 0 <= i < |groups| ensures GroupReversible(groups[i], b) {
      var g := groups[i];
      assert GroupReversible(g, db) && SchemaOf(b[g.table]) == SchemaOf(db[g.table]);
      forall j | 0 <= j < |g.changes| ensures Post(g.changes[j], b[g.table]) && Replaceable(g.changes[j], b[g.table]) {
        assert Post(g.changes[j], db[g.table]) && Replaceable(g.changes[j], db[g.table]);
      }
    }
  }

  /** The first group's table is not touched by the groups after it. */
  lemma FirstStays(groups: seq<Group>, db: Db)
    requires groups != [] && DistinctTables(groups) && AllReady(groups, db) && ExecuteAll(Upgrade(groups), db).Done?
    ensures var g, after := groups[0], ExecuteAll(Upgrade(groups), db).value;
      && g.table in db && ApplyAll(Ups(g.changes), db[g.table]).Done?
      && g.table in after && after[g.table] == ApplyAll(Ups(g.changes), db[g.table]).value
  {
    var g, rest := groups[0], groups[1..];
    assert GroupReady(g, db);
    ExecuteSplit(GroupUp(g), Upgrade(rest), db);
    AlterRuns(g, db);
    DistinctTail(groups);
    var db1 := ExecuteAll(GroupUp(g), db).value;
    forall i | 0 <= i < |rest| ensures rest[i].Alter? && rest[i].table in db1 && AddNoColumn(rest[i].changes) {
      assert GroupReady(groups[i + 1], db);
    }
    UpgradeKeepsRows(rest, db1);
  }

  lemma FirstReversible(g: Group, db: Db, after: Db)
    requires Sound(db) && GroupReady(g, db)
    requires ApplyAll(Ups(g.changes), db[g.table]).Done?
    requires g.table in after && after[g.table] == ApplyAll(Ups(g.changes), db[g.table]).value
    ensures GroupReversible(g, after)
  {
    UpsGiveReversible(g.changes, db[g.table]);
  }

  /** After the first group the others find themselves in the same situation. */
  lemma AfterFirst(groups: seq<Group>, db: Db) returns (db1: Db)
    requires Sound(db) && groups != [] && DistinctTables(groups) && AllReady(groups, db)
    requires ExecuteAll(Upgrade(groups), db).Done?
    ensures Sound(db1) && DistinctTables(groups[1..]) && AllReady(groups[1..], db1)
    ensures ExecuteAll(Upgrade(groups[1..]), db1) == ExecuteAll(Upgrade(groups), db)
  {
    var g := groups[0];
    assert GroupReady(g, db);
    ExecuteSplit(GroupUp(g), Upgrade(groups[1..]), db);
    AlterRuns(g, db);
    MigrationKeepsSound(GroupUp(g), db);
    SeparateRuns(g.changes, db[g.table]);
    db1 := ExecuteAll(GroupUp(g), db).value;
    RestReady(groups, db, db1);
  }

  lemma BothReversible(groups: seq<Group>, db: Db)
    requires groups != [] && GroupReversible(groups[0], db) && AllReversible(groups[1..], db)
    ensures AllReversible(groups, db)
  {
    forall i | 0 <= i < |groups| ensures GroupReversible(groups[i], db) {
      if i > 0 { assert groups[1..][i - 1] == groups[i]; }
    }
  }

  lemma {:induction false} UpgradeGivesReversible(groups: seq<Group>, db: Db)
    requires Sound(db) && DistinctTables(groups) && AllReady(groups, db) && ExecuteAll(Upgrade(groups), db).Done?
    ensures AllReversible(groups, ExecuteAll(Upgrade(groups), db).value)
  {
    if groups != [] {
      assert GroupReady(groups[0], db);
      FirstStays(groups, db);
      FirstReversible(groups[0], db, ExecuteAll(Upgrade(groups), db).value);
      var db1 := AfterFirst(groups, db);
      assert forall i :: 0 <= i < |groups[1..]| ==> groups[1..][i] == groups[i + 1];
      UpgradeGivesReversible(groups[1..], db1);
      BothReversible(groups, ExecuteAll(Upgrade(groups), db).value);
    }
  }

  /** The rows bear that every change of every group is taken back. */
  ghost predicate RowsBear(groups: seq<Group>, db: Db) {
    forall i :: 0 <= i < |groups| ==> groups[i].table in db && AllBearable(groups[i].changes, groups[i].table, db)
  }

  lemma AlterDown(g: Group)
    requires g.Alter?
    ensures GroupDown(g) == OnAll(g.table, Downs(g.changes))
  {}

  /** The downgrade runs exactly when no column it makes NOT NULL holds a NULL, and the rows
      satisfy every index and constraint it creates again, foreign keys included; otherwise
      the database rejects it, without a guard's explanation. */
  lemma {:induction false} DowngradeRunsExactly(groups: seq<Group>, db: Db)
    requires Sound(db) && DistinctTables(groups) && AllReversible(groups, db)
    ensures ExecuteAll(Downgrade(groups), db).Done? <==> RowsBear(groups, db)
    ensures ExecuteAll(Downgrade(groups), db).Failed? ==> ExecuteAll(Downgrade(groups), db).error == Rejected
    decreases |groups|
  {
    if groups != [] {
      var front, last := groups[..|groups| - 1], groups[|groups| - 1];
      assert GroupReversible(last, db);
      LastDowngraded(groups, db);
      SeparateDowns(last.changes, last.table, db);
      AlterDown(last);
      if ExecuteAll(GroupDown(last), db).Done? {
        var db1 := ExecuteAll(GroupDown(last), db).value;
        MigrationKeepsSound(GroupDown(last), db);
        FrontReversible(groups, db, db1);
        DowngradeRunsExactly(front, db1);
      } else {
        assert !AllBearable(groups[|groups| - 1].changes, last.table, db);
      }
    }
  }

  lemma FrontReversible(groups: seq<Group>, db: Db, db1: Db)
    requires groups != [] && DistinctTables(groups) && AllReversible(groups, db) && SameRows(db, db1)
    requires var last := groups[|groups| - 1];
      && (forall other :: other in db && other != last.table ==> db1[other] == db[other])
      && last.table in db && AllBearable(last.changes, last.table, db)
    ensures var front := groups[..|groups| - 1];
      DistinctTables(front) && AllReversible(front, db1) && (RowsBear(groups, db) <==> RowsBear(front, db1))
  {
    var n := |groups| - 1;
    var front := groups[..n];
    forall i | 0 <= i < n
      ensures GroupReversible(front[i], db1) && front[i].table in db
      ensures AllBearable(front[i].changes, front[i].table, db1) <==> AllBearable(front[i].changes, front[i].table, db)
    {
      assert GroupReversible(groups[i], db) && groups[i].table != groups[n].table;
      AllBearableSame(front[i].changes, front[i].table, db, db1);
    }
    if RowsBear(front, db1) {
      forall i | 0 <= i < |groups| ensures groups[i].table in db && AllBearable(groups[i].changes, groups[i].table, db) {
        if i < n { assert front[i] == groups[i] && AllBearable(front[i].changes, front[i].table, db1); }
      }
    }
    if RowsBear(groups, db) {
      forall i | 0 <= i < n ensures AllBearable(front[i].changes, front[i].table, db1) {
        assert front[i] == groups[i] && AllBearable(groups[i].changes, groups[i].table, db);
      }
    }
  }
}
