/** Databases of several tables with foreign keys between them, and what a statement of a
    migration does to one, or why it is rejected. */
module Databases {
  import opened Schema

  type Db = map<TableName, Table>

  datatype Op =
    | On(table: TableName, op: TableOp)
    | CreateTable(table: TableName, columns: map<string, Column>, constraints: map<string, Constraint>)
    | DropTable(table: TableName)

  predicate Declarable(columns: map<string, Column>, constraints: map<string, Constraint>) {
    forall n :: n in constraints ==> ConstraintColumns(constraints[n]) <= columns.Keys
  }

  // ---- foreign keys ----

  /** The referenced table is there, with the referenced columns. */
  predicate Resolves(fk: Constraint, db: Db)
    requires fk.ForeignKey?
  {
    && fk.refTable in db && |fk.columns| == |fk.refColumns|
    && forall i :: 0 <= i < |fk.refColumns| ==> fk.refColumns[i] in db[fk.refTable].columns
  }

  predicate Matches(row: Row, columns: seq<string>, target: Row, refColumns: seq<string>)
    requires |columns| == |refColumns|
  {
    forall i :: 0 <= i < |columns| ==> Cell(row, columns[i]) == Cell(target, refColumns[i])
  }

  /** A row with a NULL among the columns refers to nothing; any other one finds its match. */
  predicate Refers(row: Row, fk: Constraint, targets: seq<Row>)
    requires fk.ForeignKey? && |fk.columns| == |fk.refColumns|
  {
    || (exists i :: 0 <= i < |fk.columns| && Cell(row, fk.columns[i]).Null?)
    || (exists j :: 0 <= j < |targets| && Matches(row, fk.columns, targets[j], fk.refColumns))
  }

  /** The foreign key can be declared over the rows. */
  predicate Honoured(fk: Constraint, rows: seq<Row>, db: Db)
    requires fk.ForeignKey?
  {
    Resolves(fk, db) && forall i :: 0 <= i < |rows| ==> Refers(rows[i], fk, db[fk.refTable].rows)
  }

  ghost predicate KeysHonoured(db: Db) {
    forall table, n :: table in db && n in db[table].constraints && db[table].constraints[n].ForeignKey? ==>
      Honoured(db[table].constraints[n], db[table].rows, db)
  }

  /** `con` of the table `from` is a foreign key to the column, and not one that goes with it. */
  predicate PointsAt(con: Constraint, from: TableName, table: TableName, column: string) {
    con.ForeignKey? && con.refTable == table && column in con.refColumns && !(from == table && column in con.columns)
  }

  /** `con` of the table `from` is a foreign key from or to the column. */
  predicate Watches(con: Constraint, from: TableName, table: TableName, column: string) {
    con.ForeignKey? && ((from == table && column in con.columns) || (con.refTable == table && column in con.refColumns))
  }

  /** A foreign key stands against the operation. */
  predicate Breaks(op: TableOp, table: TableName, db: Db)
    requires table in db
  {
    match op
    case AddConstraint(_, con) => con.ForeignKey? && !Honoured(con, db[table].rows, db)
    case DropColumn(column) =>
      exists from, n :: from in db && n in db[from].constraints && PointsAt(db[from].constraints[n], from, table, column)
    case Update(column, cond, whenTrue, otherwise) =>
      var after := db[table := db[table].(rows := UpdateCells(db[table].rows, column, cond, whenTrue, otherwise))];
      exists from, n :: from in after && n in after[from].constraints && Watches(after[from].constraints[n], from, table, column)
                        && !Honoured(after[from].constraints[n], after[from].rows, after)
    case _ => false
  }

  /** Some other table has a foreign key to this one. */
  predicate Referenced(table: TableName, db: Db) {
    exists from, n :: from in db && from != table && n in db[from].constraints
                      && db[from].constraints[n].ForeignKey? && db[from].constraints[n].refTable == table
  }

  predicate AllResolve(constraints: map<string, Constraint>, db: Db) {
    forall n :: n in constraints && constraints[n].ForeignKey? ==> Resolves(constraints[n], db)
  }

  function Execute(op: Op, db: Db): Outcome<Db> {
    match op
    case On(table, tableOp) =>
      if table !in db || Breaks(tableOp, table, db) then Failed(Rejected)
      else (match Apply(tableOp, db[table]) case Failed(e) => Failed(e) case Done(t) => Done(db[table := t]))
    case CreateTable(table, columns, constraints) =>
      var after := db[table := Table(columns, map[], constraints, [])];
      if table in db || !Declarable(columns, constraints) || !AllResolve(constraints, after) then Failed(Rejected)
      else Done(after)
    case DropTable(table) =>
      if table !in db || Referenced(table, db) then Failed(Rejected) else Done(db - {table})
  }

  // ---- what foreign keys stand against, told by the tables and cells ----

  /** A column can be dropped exactly when it is there and no foreign key refers to it but one
      of the same table that goes with it. */
  lemma DropColumnExactly(table: TableName, column: string, db: Db)
    ensures Execute(On(table, DropColumn(column)), db).Done? <==>
      && table in db && column in db[table].columns
      && forall from, n :: from in db && n in db[from].constraints && db[from].constraints[n].ForeignKey?
                           && db[from].constraints[n].refTable == table && column in db[from].constraints[n].refColumns ==>
           from == table && column in db[from].constraints[n].columns
  {}

  /** A table can be dropped exactly when it is there and no foreign key of another refers to it. */
  lemma DropTableExactly(table: TableName, db: Db)
    ensures Execute(DropTable(table), db).Done? <==>
      && table in db
      && forall from, n :: from in db && from != table && n in db[from].constraints && db[from].constraints[n].ForeignKey? ==>
           db[from].constraints[n].refTable != table
  {}

  /** The target has all the values of the row, in order, none of them NULL. */
  ghost predicate HasAllValues(target: Row, refColumns: seq<string>, row: Row, columns: seq<string>)
    requires |columns| == |refColumns|
  {
    forall k :: 0 <= k < |columns| ==>
      HasValue(row, columns[k]) && HasValue(target, refColumns[k]) && row[columns[k]] == target[refColumns[k]]
  }

  /** The row refers to nothing, having no value in one of the columns, or to one of the targets. */
  ghost predicate FindsTarget(row: Row, columns: seq<string>, targets: seq<Row>, refColumns: seq<string>)
    requires |columns| == |refColumns|
  {
    || (exists k :: 0 <= k < |columns| && !HasValue(row, columns[k]))
    || (exists j :: 0 <= j < |targets| && HasAllValues(targets[j], refColumns, row, columns))
  }

  lemma RefersExactly(row: Row, fk: Constraint, targets: seq<Row>)
    requires fk.ForeignKey? && |fk.columns| == |fk.refColumns|
    ensures Refers(row, fk, targets) <==> FindsTarget(row, fk.columns, targets, fk.refColumns)
  {
    forall k | 0 <= k < |fk.columns| ensures Cell(row, fk.columns[k]).Null? <==> !HasValue(row, fk.columns[k]) {}
    if k :| 0 <= k < |fk.columns| && !HasValue(row, fk.columns[k]) {
      assert Cell(row, fk.columns[k]).Null?;
    } else {
      forall j | 0 <= j < |targets|
        ensures Matches(row, fk.columns, targets[j], fk.refColumns) <==> HasAllValues(targets[j], fk.refColumns, row, fk.columns)
      {
        MatchesExactly(row, fk, targets[j]);
      }
    }
  }

  lemma MatchesExactly(row: Row, fk: Constraint, target: Row)
    requires fk.ForeignKey? && |fk.columns| == |fk.refColumns|
    requires forall k :: 0 <= k < |fk.columns| ==> HasValue(row, fk.columns[k])
    ensures Matches(row, fk.columns, target, fk.refColumns) <==> HasAllValues(target, fk.refColumns, row, fk.columns)
  {
    forall k | 0 <= k < |fk.columns|
      ensures Cell(row, fk.columns[k]) == Cell(target, fk.refColumns[k]) <==>
        HasValue(target, fk.refColumns[k]) && row[fk.columns[k]] == target[fk.refColumns[k]]
    {
      assert HasValue(row, fk.columns[k]);
    }
  }

  /** A foreign key can be declared over the rows exactly when the referenced table is there with
      as many referenced columns, and every row refers to nothing or finds its target. */
  lemma HonouredExactly(fk: Constraint, rows: seq<Row>, db: Db)
    requires fk.ForeignKey?
    ensures Honoured(fk, rows, db) <==>
      && fk.refTable in db && |fk.columns| == |fk.refColumns| && (forall c :: c in fk.refColumns ==> c in db[fk.refTable].columns)
      && forall i :: 0 <= i < |rows| ==> FindsTarget(rows[i], fk.columns, db[fk.refTable].rows, fk.refColumns)
  {
    if fk.refTable in db && |fk.columns| == |fk.refColumns| {
      forall i | 0 <= i < |rows|
        ensures Refers(rows[i], fk, db[fk.refTable].rows) <==> FindsTarget(rows[i], fk.columns, db[fk.refTable].rows, fk.refColumns)
      {
        RefersExactly(rows[i], fk, db[fk.refTable].rows);
      }
    }
  }

  lemma AddKeyExactly(table: TableName, name: string, fk: Constraint, db: Db)
    requires fk.ForeignKey?
    ensures Execute(On(table, AddConstraint(name, fk)), db).Done? <==>
      && table in db && name !in db[table].constraints
      && (forall c :: c in fk.columns ==> c in db[table].columns)
      && Honoured(fk, db[table].rows, db)
  {
    assert forall c :: c in ConstraintColumns(fk) <==> c in fk.columns;
  }

  function ExecuteAll(ops: seq<Op>, db: Db): Outcome<Db> {
    if ops == [] then Done(db)
    else
      match Execute(ops[0], db)
      case Failed(e) => Failed(e)
      case Done(db') => ExecuteAll(ops[1..], db')
  }

  /** What the operations make of the outcome so far. */
  function Followed(outcome: Outcome<Db>, ops: seq<Op>): Outcome<Db> {
    match outcome case Failed(e) => Failed(e) case Done(db) => ExecuteAll(ops, db)
  }

  /** Every table is well formed and every foreign key finds what it refers to. */
  ghost predicate Sound(db: Db) {
    (forall table :: table in db ==> WellFormed(db[table])) && KeysHonoured(db)
  }

  /** The rows agree on the listed columns. */
  ghost predicate SameOver(rows: seq<Row>, rows': seq<Row>, columns: seq<string>) {
    |rows'| == |rows| && forall i, k :: 0 <= i < |rows| && 0 <= k < |columns| ==> Cell(rows'[i], columns[k]) == Cell(rows[i], columns[k])
  }

  lemma RefersSame(fk: Constraint, rows: seq<Row>, rows': seq<Row>, i: nat, targets: seq<Row>, targets': seq<Row>)
    requires fk.ForeignKey? && |fk.columns| == |fk.refColumns| && i < |rows| && Refers(rows[i], fk, targets)
    requires SameOver(rows, rows', fk.columns) && SameOver(targets, targets', fk.refColumns)
    ensures Refers(rows'[i], fk, targets')
  {
    if k :| 0 <= k < |fk.columns| && Cell(rows[i], fk.columns[k]).Null? {
      assert Cell(rows'[i], fk.columns[k]).Null?;
    } else {
      var j :| 0 <= j < |targets| && Matches(rows[i], fk.columns, targets[j], fk.refColumns);
      assert Matches(rows'[i], fk.columns, targets'[j], fk.refColumns);
    }
  }

  /** A foreign key stays honoured while neither end of it changes. */
  lemma HonouredSame(fk: Constraint, rows: seq<Row>, db: Db, rows': seq<Row>, db': Db)
    requires fk.ForeignKey? && Honoured(fk, rows, db) && Resolves(fk, db')
    requires SameOver(rows, rows', fk.columns)
    requires SameOver(db[fk.refTable].rows, db'[fk.refTable].rows, fk.refColumns)
    ensures Honoured(fk, rows', db')
  {
    forall i | 0 <= i < |rows'| ensures Refers(rows'[i], fk, db'[fk.refTable].rows) {
      RefersSame(fk, rows, rows', i, db[fk.refTable].rows, db'[fk.refTable].rows);
    }
  }

  /** The rows agree outside the written columns. */
  ghost predicate OnlyWritten(rows: seq<Row>, rows': seq<Row>, written: set<string>) {
    |rows'| == |rows| && forall i, c :: 0 <= i < |rows| && c !in written ==> Cell(rows'[i], c) == Cell(rows[i], c)
  }

  lemma WritesOnly(op: TableOp, t: Table)
    requires Apply(op, t).Done?
    ensures OnlyWritten(t.rows, Apply(op, t).value.rows, Writes(op))
  {
    var rows' := Apply(op, t).value.rows;
    StepKeepsCells(op, t, {});
    forall i, c | 0 <= i < |t.rows| && c !in Writes(op) ensures Cell(rows'[i], c) == Cell(t.rows[i], c) {
      StepKeepsCells(op, t, {c});
      assert c in {c};
    }
  }

  predicate Apart(written: set<string>, columns: seq<string>) {
    forall k :: 0 <= k < |columns| ==> columns[k] !in written
  }

  /** A foreign key that does not watch the written columns stays honoured. */
  lemma UnwatchedHonoured(table: TableName, db: Db, from: TableName, fk: Constraint, t: Table, written: set<string>)
    requires table in db && from in db && OnlyWritten(db[table].rows, t.rows, written)
    requires fk.ForeignKey? && Honoured(fk, db[from].rows, db) && Resolves(fk, db[table := t])
    requires from == table ==> Apart(written, fk.columns)
    requires fk.refTable == table ==> Apart(written, fk.refColumns)
    ensures Honoured(fk, db[table := t][from].rows, db[table := t])
  {
    HonouredSame(fk, db[from].rows, db, db[table := t][from].rows, db[table := t]);
  }

  /** Where the constraints of the table after an operation come from. */
  lemma OldConstraint(op: TableOp, t: Table, t': Table, n: string)
    requires Apply(op, t) == Done(t') && n in t'.constraints && !(op.AddConstraint? && op.name == n)
    ensures n in t.constraints && t.constraints[n] == t'.constraints[n]
    ensures op.DropColumn? ==> op.column !in ConstraintColumns(t'.constraints[n])
  {}

  /** An old foreign key still finds its columns after an operation that does not break it. */
  lemma OldResolves(op: TableOp, table: TableName, db: Db, from: TableName, n: string, t: Table)
    requires table in db && Apply(op, db[table]) == Done(t) && !Breaks(op, table, db)
    requires from in db && n in db[from].constraints && db[from].constraints[n].ForeignKey?
    requires Resolves(db[from].constraints[n], db)
    requires op.DropColumn? && from == table ==> op.column !in db[from].constraints[n].columns
    ensures Resolves(db[from].constraints[n], db[table := t])
  {
    if op.DropColumn? { assert !PointsAt(db[from].constraints[n], from, table, op.column); }
  }

  /** A foreign key does not watch a column that is added, or dropped without breaking it. */
  lemma Unwatched(op: TableOp, table: TableName, db: Db, from: TableName, n: string)
    requires Sound(db) && table in db && Apply(op, db[table]).Done? && !Breaks(op, table, db)
    requires from in db && n in db[from].constraints && db[from].constraints[n].ForeignKey?
    requires op.AddColumn? || op.DropColumn?
    requires op.DropColumn? && from == table ==> op.column !in db[from].constraints[n].columns
    ensures !Watches(db[from].constraints[n], from, table, op.column)
  {
    var fk := db[from].constraints[n];
    if op.DropColumn? {
      assert !PointsAt(fk, from, table, op.column);
    } else {
      assert Honoured(fk, db[from].rows, db) && WellFormed(db[from]);
      assert forall c :: c in fk.columns ==> c in ConstraintColumns(fk);
    }
  }

  /** An update that a foreign key watches was checked. */
  lemma CheckedHonoured(op: TableOp, table: TableName, db: Db, from: TableName, n: string, t: Table)
    requires op.Update? && table in db && Apply(op, db[table]) == Done(t) && !Breaks(op, table, db)
    requires from in db && n in db[from].constraints && Watches(db[from].constraints[n], from, table, op.column)
    ensures Honoured(db[from].constraints[n], db[table := t][from].rows, db[table := t])
  {
    assert db[table := t][from].constraints[n] == db[from].constraints[n];
  }

  lemma UnwatchedApart(fk: Constraint, from: TableName, table: TableName, column: string)
    requires fk.ForeignKey? && !Watches(fk, from, table, column)
    ensures (from == table ==> Apart({column}, fk.columns)) && (fk.refTable == table ==> Apart({column}, fk.refColumns))
  {}

  /** No written column is watched by the foreign key. */
  lemma OldUnwatched(op: TableOp, table: TableName, db: Db, from: TableName, n: string)
    requires Sound(db) && table in db && Apply(op, db[table]).Done? && !Breaks(op, table, db)
    requires from in db && n in db[from].constraints && db[from].constraints[n].ForeignKey?
    requires op.DropColumn? && from == table ==> op.column !in db[from].constraints[n].columns
    requires op.Update? ==> !Watches(db[from].constraints[n], from, table, op.column)
    ensures var fk := db[from].constraints[n];
      (from == table ==> Apart(Writes(op), fk.columns)) && (fk.refTable == table ==> Apart(Writes(op), fk.refColumns))
  {
    var fk := db[from].constraints[n];
    if op.AddColumn? || op.DropColumn? { Unwatched(op, table, db, from, n); }
    if op.AddColumn? || op.DropColumn? || op.Update? { UnwatchedApart(fk, from, table, op.column); }
  }

  /** An old foreign key is not written to, or it was checked. */
  lemma OldHonoured(op: TableOp, table: TableName, db: Db, from: TableName, n: string, t: Table)
    requires Sound(db) && table in db && Apply(op, db[table]) == Done(t) && !Breaks(op, table, db)
    requires from in db && n in db[from].constraints && db[from].constraints[n].ForeignKey?
    requires op.DropColumn? && from == table ==> op.column !in db[from].constraints[n].columns
    ensures Honoured(db[from].constraints[n], db[table := t][from].rows, db[table := t])
  {
    if op.Update? && Watches(db[from].constraints[n], from, table, op.column) {
      CheckedHonoured(op, table, db, from, n, t);
    } else {
      OldResolves(op, table, db, from, n, t);
      OldUnwatched(op, table, db, from, n);
      WritesOnly(op, db[table]);
      UnwatchedHonoured(table, db, from, db[from].constraints[n], t, Writes(op));
    }
  }

  /** What is added was checked against rows and columns that the operation leaves alone. */
  lemma AddedHonoured(op: TableOp, table: TableName, db: Db, t: Table)
    requires op.AddConstraint? && op.constraint.ForeignKey?
    requires table in db && Apply(op, db[table]) == Done(t) && !Breaks(op, table, db)
    ensures Honoured(op.constraint, t.rows, db[table := t])
  {
    HonouredSame(op.constraint, db[table].rows, db, t.rows, db[table := t]);
  }

  /** No operation that runs leaves a dangling foreign key behind. */
  lemma StepKeepsKeys(op: TableOp, table: TableName, db: Db, t: Table)
    requires Sound(db) && table in db && Apply(op, db[table]) == Done(t) && !Breaks(op, table, db)
    ensures KeysHonoured(db[table := t])
  {
    var db' := db[table := t];
    forall from, n | from in db' && n in db'[from].constraints && db'[from].constraints[n].ForeignKey?
      ensures Honoured(db'[from].constraints[n], db'[from].rows, db')
    {
      if from == table && op.AddConstraint? && op.name == n {
        AddedHonoured(op, table, db, t);
      } else {
        if from == table { OldConstraint(op, db[table], t, n); }
        OldHonoured(op, table, db, from, n, t);
      }
    }
  }

  lemma CreateKeepsSound(op: Op, db: Db)
    requires op.CreateTable? && Sound(db) && Execute(op, db).Done?
    ensures Sound(Execute(op, db).value)
  {
    var db' := Execute(op, db).value;
    forall from, n | from in db' && n in db'[from].constraints && db'[from].constraints[n].ForeignKey?
      ensures Honoured(db'[from].constraints[n], db'[from].rows, db')
    {
      if from != op.table { assert Honoured(db[from].constraints[n], db[from].rows, db); }
    }
  }

  lemma DropKeepsSound(op: Op, db: Db)
    requires op.DropTable? && Sound(db) && Execute(op, db).Done?
    ensures Sound(Execute(op, db).value)
  {
    var db' := Execute(op, db).value;
    forall from, n | from in db' && n in db'[from].constraints && db'[from].constraints[n].ForeignKey?
      ensures Honoured(db'[from].constraints[n], db'[from].rows, db')
    {
      assert Honoured(db[from].constraints[n], db[from].rows, db);
    }
  }

  /** Whatever its operations, a migration either fails or keeps every table well formed and
      every foreign key honoured. */
  lemma {:induction false} MigrationKeepsSound(ops: seq<Op>, db: Db)
    requires Sound(db)
    ensures ExecuteAll(ops, db).Done? ==> Sound(ExecuteAll(ops, db).value)
  {
    if ops != [] && Execute(ops[0], db).Done? {
      var db1 := Execute(ops[0], db).value;
      if ops[0].On? {
        StepKeepsWellFormed(ops[0].op, db[ops[0].table]);
        StepKeepsKeys(ops[0].op, ops[0].table, db, db1[ops[0].table]);
      } else if ops[0].CreateTable? {
        CreateKeepsSound(ops[0], db);
      } else {
        DropKeepsSound(ops[0], db);
      }
      MigrationKeepsSound(ops[1..], db1);
    }
  }

  lemma {:induction false} ExecuteSplit(xs: seq<Op>, ys: seq<Op>, db: Db)
    ensures ExecuteAll(xs + ys, db) == Followed(ExecuteAll(xs, db), ys)
  {
    if xs == [] {
      assert xs + ys == ys;
    } else {
      assert (xs + ys)[1..] == xs[1..] + ys;
      if Execute(xs[0], db).Done? { ExecuteSplit(xs[1..], ys, Execute(xs[0], db).value); }
    }
  }

  /** The databases have the same tables with the same schema, whatever their rows. */
  ghost predicate SameSchema(a: Db, b: Db) {
    a.Keys == b.Keys && forall table :: table in a ==> SchemaOf(a[table]) == SchemaOf(b[table])
  }

  lemma {:induction false} MigrationSchema(ops: seq<Op>, a: Db, b: Db)
    requires SameSchema(a, b) && ExecuteAll(ops, a).Done? && ExecuteAll(ops, b).Done?
    ensures SameSchema(ExecuteAll(ops, a).value, ExecuteAll(ops, b).value)
  {
    if ops != [] {
      if ops[0].On? { SchemaStep(ops[0].op, a[ops[0].table], b[ops[0].table]); }
      MigrationSchema(ops[1..], Execute(ops[0], a).value, Execute(ops[0], b).value);
    }
  }

  // ---- what a migration leaves in the rows ----

  /** The operation neither drops nor creates the table nor writes one of the columns in it. */
  predicate Leaves(op: Op, table: TableName, columns: set<string>) {
    if op.On? then op.table == table ==> columns !! Writes(op.op) else op.table != table
  }

  lemma {:induction false} RowsKept(ops: seq<Op>, db: Db, table: TableName, columns: set<string>)
    requires table in db && ExecuteAll(ops, db).Done?
    requires forall i :: 0 <= i < |ops| ==> Leaves(ops[i], table, columns)
    ensures table in ExecuteAll(ops, db).value
    ensures Agree(db[table].rows, ExecuteAll(ops, db).value[table].rows, columns)
  {
    if ops != [] {
      assert Leaves(ops[0], table, columns);
      if ops[0].On? && ops[0].table == table { StepKeepsCells(ops[0].op, db[table], columns); }
      RowsKept(ops[1..], Execute(ops[0], db).value, table, columns);
    }
  }
}
