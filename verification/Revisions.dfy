/** Revisions as lists of changes over many tables: their upgrades, their downgrades, and
    when one undoes the other on a whole database. */
module Revisions {
  import opened Databases
  import opened Schema
  import opened Changes

  // ---- changes of one table, in order ----

  function Ups(changes: seq<Change>): seq<TableOp> {
    if changes == [] then [] else Up(changes[0]) + Ups(changes[1..])
  }

  /** The downgrade goes through the changes in reverse. */
  function Downs(changes: seq<Change>): seq<TableOp> {
    if changes == [] then [] else Downs(changes[1..]) + Down(changes[0])
  }

  /** Every change finds the table as expected when its turn comes. */
  ghost predicate PreAll(changes: seq<Change>, t: Table) {
    changes == [] ||
    (Pre(changes[0], t) && Sensible(changes[0]) &&
     (ApplyAll(Up(changes[0]), t).Done? ==> PreAll(changes[1..], ApplyAll(Up(changes[0]), t).value)))
  }

  /** The same for the downgrade, which starts from the last change. */
  ghost predicate PostAll(changes: seq<Change>, t: Table) {
    changes == [] ||
    var last := changes[|changes| - 1];
    Post(last, t) && Sensible(last) &&
    (ApplyAll(Down(last), t).Done? ==> PostAll(changes[..|changes| - 1], ApplyAll(Down(last), t).value))
  }

  lemma {:induction false} UndoneAll(changes: seq<Change>, t: Table)
    requires WellFormed(t) && PreAll(changes, t) && ApplyAll(Ups(changes), t).Done?
    ensures ApplyAll(Downs(changes), ApplyAll(Ups(changes), t).value) == Done(t)
  {
    if changes != [] {
      var c := changes[0];
      ApplySplit(Up(c), Ups(changes[1..]), t);
      var t1 := ApplyAll(Up(c), t).value;
      RunKeepsWellFormed(Up(c), t);
      UndoneAll(changes[1..], t1);
      UndoneExactly(c, t);
      ApplySplit(Downs(changes[1..]), Down(c), ApplyAll(Ups(changes), t).value);
    }
  }

  lemma Alone(c: Change)
    ensures Ups([c]) == Up(c) && Downs([c]) == Down(c)
  {
    var one := [c];
    var none: seq<Change> := [];
    assert one[1..] == none && Ups(none) == [] && Downs(none) == [];
    assert Ups(one) == Up(c) + Ups(none);
    assert Downs(one) == Downs(none) + Down(c);
  }

  lemma {:induction false} UpsSnoc(changes: seq<Change>, c: Change)
    ensures Ups(changes + [c]) == Ups(changes) + Up(c)
  {
    if changes == [] {
      assert [c][1..] == [] && changes + [c] == [c];
    } else {
      assert (changes + [c])[1..] == changes[1..] + [c];
      UpsSnoc(changes[1..], c);
      Associate(Up(changes[0]), Ups(changes[1..]), Up(c));
    }
  }

  lemma {:induction false} DownsSnoc(changes: seq<Change>, c: Change)
    ensures Downs(changes + [c]) == Down(c) + Downs(changes)
  {
    if changes == [] {
      assert [c][1..] == [] && changes + [c] == [c];
    } else {
      assert (changes + [c])[1..] == changes[1..] + [c];
      DownsSnoc(changes[1..], c);
      Associate(Down(c), Downs(changes[1..]), Down(changes[0]));
    }
  }

  lemma Associate<T>(xs: seq<T>, ys: seq<T>, zs: seq<T>)
    ensures (xs + ys) + zs == xs + (ys + zs)
  {}

  function FollowedOn(outcome: Outcome<Table>, ops: seq<TableOp>): Outcome<Table> {
    match outcome case Failed(e) => Failed(e) case Done(t) => ApplyAll(ops, t)
  }

  lemma ApplyParts(ops: seq<TableOp>, xs: seq<TableOp>, ys: seq<TableOp>, t: Table)
    requires ops == xs + ys
    ensures ApplyAll(ops, t) == FollowedOn(ApplyAll(xs, t), ys)
  {
    ApplySplit(xs, ys, t);
  }

  lemma LastMade(changes: seq<Change>, u: Table)
    requires changes != []
    ensures ApplyAll(Ups(changes), u) == FollowedOn(ApplyAll(Ups(changes[..|changes| - 1]), u), Up(changes[|changes| - 1]))
  {
    var front, last := changes[..|changes| - 1], changes[|changes| - 1];
    assert changes == front + [last];
    UpsSnoc(front, last);
    ApplyParts(Ups(changes), Ups(front), Up(last), u);
  }

  lemma LastTakenBack(changes: seq<Change>, t: Table)
    requires changes != []
    ensures ApplyAll(Downs(changes), t) == FollowedOn(ApplyAll(Down(changes[|changes| - 1]), t), Downs(changes[..|changes| - 1]))
  {
    var front, last := changes[..|changes| - 1], changes[|changes| - 1];
    assert changes == front + [last];
    DownsSnoc(front, last);
    ApplyParts(Downs(changes), Down(last), Downs(front), t);
  }

  /** The last change is made last and undone first. */
  lemma LastChange(changes: seq<Change>, t: Table, u: Table) returns (t1: Table, u1: Table)
    requires changes != [] && ApplyAll(Downs(changes), t).Done? && ApplyAll(Ups(changes), u).Done?
    ensures var front, last := changes[..|changes| - 1], changes[|changes| - 1];
      && ApplyAll(Down(last), t) == Done(t1)
      && ApplyAll(Downs(changes), t) == ApplyAll(Downs(front), t1)
      && ApplyAll(Ups(front), u) == Done(u1)
      && ApplyAll(Ups(changes), u) == ApplyAll(Up(last), u1)
  {
    LastMade(changes, u);
    LastTakenBack(changes, t);
    t1 := ApplyAll(Down(changes[|changes| - 1]), t).value;
    u1 := ApplyAll(Ups(changes[..|changes| - 1]), u).value;
  }

  lemma {:induction false} RedoneAll(changes: seq<Change>, t: Table, u: Table)
    requires WellFormed(t) && PostAll(changes, t) && ApplyAll(Downs(changes), t).Done?
    requires SchemaOf(u) == SchemaOf(ApplyAll(Downs(changes), t).value) && ApplyAll(Ups(changes), u).Done?
    ensures SchemaOf(ApplyAll(Ups(changes), u).value) == SchemaOf(t)
    decreases |changes|
  {
    if changes != [] {
      var front, last := changes[..|changes| - 1], changes[|changes| - 1];
      var t1, u1 := LastChange(changes, t, u);
      RunKeepsWellFormed(Down(last), t);
      RedoneAll(front, t1, u);
      RedoneExactly(last, t, u1);
    }
  }

  // ---- changes that ran ----

  /** What the changes make of the table one after the other: the downgrade takes the last one first. */
  function TurnedAll(changes: seq<Change>, up: bool, t: Table): Table {
    if changes == [] then t
    else if up then TurnedAll(changes[1..], up, Turned(changes[0], up, t))
    else Turned(changes[0], up, TurnedAll(changes[1..], up, t))
  }

  function AllOps(changes: seq<Change>, up: bool): seq<TableOp> {
    if up then Ups(changes) else Downs(changes)
  }

  lemma {:induction false} RanIsTurned(changes: seq<Change>, up: bool, t: Table)
    requires forall i :: 0 <= i < |changes| ==> KeepsColumns(changes[i])
    requires ApplyAll(AllOps(changes, up), t).Done?
    ensures ApplyAll(AllOps(changes, up), t) == Done(TurnedAll(changes, up, t))
  {
    if changes != [] {
      var c, rest := changes[0], changes[1..];
      if up {
        ApplySplit(Up(c), Ups(rest), t);
        TurnedIs(c, up, t);
        RanIsTurned(rest, up, Turned(c, up, t));
      } else {
        ApplySplit(Downs(rest), Down(c), t);
        RanIsTurned(rest, up, t);
        TurnedIs(c, up, TurnedAll(rest, up, t));
      }
    }
  }

  lemma TurnedOne(c: Change, up: bool, t: Table)
    ensures TurnedAll([c], up, t) == Turned(c, up, t)
  {
    assert [c][1..] == [];
  }

  lemma TurnedFirst(c: Change, rest: seq<Change>, up: bool, t: Table)
    ensures TurnedAll([c] + rest, up, t) ==
      if up then TurnedAll(rest, up, Turned(c, up, t)) else Turned(c, up, TurnedAll(rest, up, t))
  {
    assert ([c] + rest)[0] == c && ([c] + rest)[1..] == rest;
  }

  lemma TurnedTwo(c: Change, d: Change, up: bool, t: Table)
    ensures TurnedAll([c, d], up, t) == if up then Turned(d, up, Turned(c, up, t)) else Turned(c, up, Turned(d, up, t))
  {
    assert [c, d] == [c] + [d];
    TurnedFirst(c, [d], up, t);
    TurnedOne(d, up, t);
    TurnedOne(d, up, Turned(c, up, t));
  }

  lemma {:induction false} TurnedJoin(xs: seq<Change>, ys: seq<Change>, up: bool, t: Table)
    ensures TurnedAll(xs + ys, up, t) ==
      if up then TurnedAll(ys, up, TurnedAll(xs, up, t)) else TurnedAll(xs, up, TurnedAll(ys, up, t))
  {
    if xs == [] {
      assert xs + ys == ys;
    } else {
      assert (xs + ys)[0] == xs[0] && (xs + ys)[1..] == xs[1..] + ys;
      TurnedJoin(xs[1..], ys, up, if up then Turned(xs[0], up, t) else t);
    }
  }

  // ---- groups of changes, table by table ----

  datatype Group =
    | Alter(table: TableName, changes: seq<Change>)
    | Create(table: TableName, columns: map<string, Column>, constraints: map<string, Constraint>, changes: seq<Change>)

  function OnAll(table: TableName, ops: seq<TableOp>): seq<Op> {
    seq(|ops|, i requires 0 <= i < |ops| => On(table, ops[i]))
  }

  function GroupUp(g: Group): seq<Op> {
    (if g.Create? then [CreateTable(g.table, g.columns, g.constraints)] else []) + OnAll(g.table, Ups(g.changes))
  }

  function GroupDown(g: Group): seq<Op> {
    OnAll(g.table, Downs(g.changes)) + (if g.Create? then [DropTable(g.table)] else [])
  }

  function Upgrade(groups: seq<Group>): seq<Op> {
    if groups == [] then [] else GroupUp(groups[0]) + Upgrade(groups[1..])
  }

  function Downgrade(groups: seq<Group>): seq<Op> {
    if groups == [] then [] else Downgrade(groups[1..]) + GroupDown(groups[0])
  }

  function Fresh(g: Group): Table
    requires g.Create?
  {
    Table(g.columns, map[], g.constraints, [])
  }

  ghost predicate GroupPre(g: Group, db: Db) {
    match g
    case Alter(table, changes) => table in db && PreAll(changes, db[table])
    case Create(table, columns, constraints, changes) => table !in db && PreAll(changes, Fresh(g))
  }

  ghost predicate GroupPost(g: Group, db: Db) {
    && g.table in db && PostAll(g.changes, db[g.table])
    && (g.Create? && ApplyAll(Downs(g.changes), db[g.table]).Done? ==>
        SchemaOf(ApplyAll(Downs(g.changes), db[g.table]).value) == Fresh(g))
  }

  ghost predicate RevisionPre(groups: seq<Group>, db: Db) {
    groups == [] ||
    (GroupPre(groups[0], db) &&
     (ExecuteAll(GroupUp(groups[0]), db).Done? ==> RevisionPre(groups[1..], ExecuteAll(GroupUp(groups[0]), db).value)))
  }

  ghost predicate RevisionPost(groups: seq<Group>, db: Db) {
    groups == [] ||
    var last := groups[|groups| - 1];
    GroupPost(last, db) &&
    (ExecuteAll(GroupDown(last), db).Done? ==>
     RevisionPost(groups[..|groups| - 1], ExecuteAll(GroupDown(last), db).value))
  }

  // ---- operations on one table of a database ----

  /** No foreign key stands against any of the operations when its turn comes. */
  ghost predicate Smooth(ops: seq<TableOp>, table: TableName, db: Db)
    requires table in db
  {
    ops == [] ||
    (!Breaks(ops[0], table, db) &&
     (Apply(ops[0], db[table]).Done? ==> Smooth(ops[1..], table, db[table := Apply(ops[0], db[table]).value])))
  }

  function OnTable(outcome: Outcome<Table>, table: TableName, db: Db): Outcome<Db> {
    match outcome case Failed(e) => Failed(e) case Done(t) => Done(db[table := t])
  }

  lemma PutAgain(db: Db, table: TableName, t: Table, u: Table)
    ensures db[table := t][table := u] == db[table := u]
  {}

  lemma {:induction false} OneTable(table: TableName, ops: seq<TableOp>, db: Db)
    requires table in db && Smooth(ops, table, db)
    ensures ExecuteAll(OnAll(table, ops), db) == OnTable(ApplyAll(ops, db[table]), table, db)
  {
    if ops == [] {
      assert db[table := db[table]] == db;
    } else {
      assert OnAll(table, ops)[1..] == OnAll(table, ops[1..]);
      if Apply(ops[0], db[table]).Done? {
        var t := Apply(ops[0], db[table]).value;
        OneTable(table, ops[1..], db[table := t]);
        if ApplyAll(ops, db[table]).Done? { PutAgain(db, table, t, ApplyAll(ops, db[table]).value); }
      }
    }
  }

  lemma {:induction false} RanSmoothly(table: TableName, ops: seq<TableOp>, db: Db)
    requires table in db && ExecuteAll(OnAll(table, ops), db).Done?
    ensures Smooth(ops, table, db)
  {
    if ops != [] {
      assert OnAll(table, ops)[1..] == OnAll(table, ops[1..]);
      RanSmoothly(table, ops[1..], db[table := Apply(ops[0], db[table]).value]);
    }
  }

  /** The operation is none that a foreign key could stand against. */
  predicate Local(op: TableOp) {
    !op.DropColumn? && !op.Update? && (op.AddConstraint? ==> !op.constraint.ForeignKey?)
  }

  lemma {:induction false} LocalSmooth(ops: seq<TableOp>, table: TableName, db: Db)
    requires table in db && forall i :: 0 <= i < |ops| ==> Local(ops[i])
    ensures Smooth(ops, table, db)
  {
    if ops != [] && Apply(ops[0], db[table]).Done? {
      LocalSmooth(ops[1..], table, db[table := Apply(ops[0], db[table]).value]);
    }
  }

  /** Foreign keys are from columns that are there to columns that are there. */
  ghost predicate KeyKnown(fk: Constraint, from: TableName, db: Db)
    requires fk.ForeignKey? && from in db
  {
    && (forall c :: c in fk.columns ==> c in db[from].columns)
    && fk.refTable in db && (forall c :: c in fk.refColumns ==> c in db[fk.refTable].columns)
  }

  ghost predicate KeysKnown(db: Db) {
    forall from, n :: from in db && n in db[from].constraints && db[from].constraints[n].ForeignKey? ==>
      KeyKnown(db[from].constraints[n], from, db)
  }

  lemma SoundKnown(db: Db)
    requires Sound(db)
    ensures KeysKnown(db)
  {
    forall from, n | from in db && n in db[from].constraints && db[from].constraints[n].ForeignKey?
      ensures KeyKnown(db[from].constraints[n], from, db)
    {
      var fk := db[from].constraints[n];
      assert Honoured(fk, db[from].rows, db) && WellFormed(db[from]);
      assert forall c :: c in fk.columns ==> c in ConstraintColumns(fk);
    }
  }

  ghost predicate SameConstraints(db: Db, db': Db) {
    db'.Keys == db.Keys && forall other :: other in db ==> db'[other].constraints == db[other].constraints
  }

  /** No foreign key has anything to do with a column that was not there. */
  lemma NewColumnFree(db: Db, table: TableName, column: string, db': Db)
    requires KeysKnown(db) && table in db && column !in db[table].columns && SameConstraints(db, db')
    ensures forall from, n :: from in db' && n in db'[from].constraints ==> !Watches(db'[from].constraints[n], from, table, column)
  {
    forall from, n | from in db' && n in db'[from].constraints ensures !Watches(db'[from].constraints[n], from, table, column) {
      if db'[from].constraints[n].ForeignKey? { assert KeyKnown(db[from].constraints[n], from, db); }
    }
  }

  lemma NewColumnDrops(db: Db, table: TableName, column: string, db': Db)
    requires KeysKnown(db) && table in db && column !in db[table].columns && SameConstraints(db, db')
    ensures !Breaks(DropColumn(column), table, db')
  {
    NewColumnFree(db, table, column, db');
    assert forall from, n :: from in db' && n in db'[from].constraints ==>
      !Watches(db'[from].constraints[n], from, table, column) && !PointsAt(db'[from].constraints[n], from, table, column);
  }

  lemma NewColumnUpdates(db: Db, table: TableName, op: TableOp, db': Db)
    requires op.Update? && KeysKnown(db) && table in db && op.column !in db[table].columns && SameConstraints(db, db')
    ensures !Breaks(op, table, db')
  {
    var rows := UpdateCells(db'[table].rows, op.column, op.cond, op.whenTrue, op.otherwise);
    NewColumnFree(db, table, op.column, db'[table := db'[table].(rows := rows)]);
  }

  /** An upgrade of any kind of change never meets a foreign key. */
  lemma UpSmooth(c: Change, table: TableName, db: Db)
    requires Sound(db) && table in db
    ensures Smooth(Up(c), table, db)
  {
    if c.Backfilled? {
      SoundKnown(db);
      BackfillSmooth(c, table, db);
    } else {
      LocalSmooth(Up(c), table, db);
    }
  }

  lemma SmoothAfter(op: TableOp, rest: seq<TableOp>, table: TableName, db: Db)
    requires table in db && !Breaks(op, table, db)
    requires Apply(op, db[table]).Done? ==> Smooth(rest, table, db[table := Apply(op, db[table]).value])
    ensures Smooth([op] + rest, table, db)
  {
    assert ([op] + rest)[0] == op && ([op] + rest)[1..] == rest;
  }

  /** From the new column on. */
  lemma FilledSmooth(update: TableOp, rest: seq<TableOp>, table: TableName, db: Db, db1: Db)
    requires KeysKnown(db) && table in db && SameConstraints(db, db1) && forall i :: 0 <= i < |rest| ==> Local(rest[i])
    requires update.Update? && update.column !in db[table].columns
    ensures Smooth([update] + rest, table, db1)
  {
    NewColumnUpdates(db, table, update, db1);
    if Apply(update, db1[table]).Done? { LocalSmooth(rest, table, db1[table := Apply(update, db1[table]).value]); }
    SmoothAfter(update, rest, table, db1);
  }

  lemma BackfillSmooth(c: Change, table: TableName, db: Db)
    requires c.Backfilled? && KeysKnown(db) && table in db
    ensures Smooth(Up(c), table, db)
  {
    var ops := Up(c);
    var rest := [ops[2], ops[3]];
    if Apply(ops[0], db[table]).Done? {
      FilledSmooth(ops[1], rest, table, db, db[table := Apply(ops[0], db[table]).value]);
    }
    SmoothAfter(ops[0], [ops[1]] + rest, table, db);
    assert ops == [ops[0]] + ([ops[1]] + rest);
  }

  lemma OneSmooth(op: TableOp, table: TableName, db: Db)
    requires table in db && !Breaks(op, table, db)
    ensures Smooth([op], table, db)
  {
    assert [op][1..] == [];
  }

  lemma ColumnDownSmooth(c: Change, table: TableName, db: Db)
    requires c.AddedColumn? && KeysKnown(db) && table in db && ApplyAll(Up(c), db[table]).Done?
    ensures Smooth(Down(c), table, db[table := ApplyAll(Up(c), db[table]).value])
  {
    Unroll(c, db[table]);
    var db1 := db[table := ApplyAll(Up(c), db[table]).value];
    NewColumnDrops(db, table, c.column, db1);
    OneSmooth(DropColumn(c.column), table, db1);
  }

  /** A dropped foreign key is as honoured as before. */
  lemma KeyDownSmooth(c: Change, table: TableName, db: Db)
    requires c.RemovedConstraint? && KeysHonoured(db) && table in db && Pre(c, db[table]) && ApplyAll(Up(c), db[table]).Done?
    ensures Smooth(Down(c), table, db[table := ApplyAll(Up(c), db[table]).value])
  {
    Unroll(c, db[table]);
    var db1 := db[table := ApplyAll(Up(c), db[table]).value];
    if c.constraint.ForeignKey? {
      assert Honoured(db[table].constraints[c.name], db[table].rows, db);
      HonouredSame(c.constraint, db[table].rows, db, db1[table].rows, db1);
    }
    OneSmooth(AddConstraint(c.name, c.constraint), table, db1);
  }

  lemma DownLocal(c: Change)
    requires !c.AddedColumn? && !c.Backfilled? && !c.RemovedConstraint?
    ensures forall i :: 0 <= i < |Down(c)| ==> Local(Down(c)[i])
  {}

  /** Nor does the downgrade right after it. */
  lemma DownSmooth(c: Change, table: TableName, db: Db)
    requires Sound(db) && table in db && Pre(c, db[table]) && Sensible(c) && ApplyAll(Up(c), db[table]).Done?
    ensures Smooth(Down(c), table, db[table := ApplyAll(Up(c), db[table]).value])
  {
    SoundKnown(db);
    if c.AddedColumn? {
      ColumnDownSmooth(c, table, db);
    } else if c.Backfilled? {
      BackfillDownSmooth(c, table, db);
    } else if c.RemovedConstraint? {
      KeyDownSmooth(c, table, db);
    } else {
      DownLocal(c);
      LocalSmooth(Down(c), table, db[table := ApplyAll(Up(c), db[table]).value]);
    }
  }

  lemma BackfillDownSmooth(c: Change, table: TableName, db: Db)
    requires c.Backfilled? && KeysKnown(db) && table in db && Sensible(c) && ApplyAll(Up(c), db[table]).Done?
    ensures Smooth(Down(c), table, db[table := ApplyAll(Up(c), db[table]).value])
  {
    BackfillUp(c.column, c.cond, c.indexName, db[table]);
    var db1 := db[table := ApplyAll(Up(c), db[table]).value];
    var ops := Down(c);
    var db2 := db1[table := Apply(ops[0], db1[table]).value];
    NewColumnDrops(db, table, c.column, db2);
    OneSmooth(ops[1], table, db2);
    assert ops[1..] == [ops[1]];
  }

  lemma ExecuteOne(op: Op, db: Db)
    ensures ExecuteAll([op], db) == Execute(op, db)
  {
    assert [op][1..] == [];
  }

  lemma OnAllJoin(table: TableName, xs: seq<TableOp>, ys: seq<TableOp>)
    ensures OnAll(table, xs + ys) == OnAll(table, xs) + OnAll(table, ys)
  {}

  /** What an upgrade of a group that ran came to. */
  lemma GroupUpRan(g: Group, db: Db)
    requires ExecuteAll(GroupUp(g), db).Done? && (g.Alter? ==> g.table in db)
    ensures g.Create? ==> g.table !in db && Execute(CreateTable(g.table, g.columns, g.constraints), db) == Done(db[g.table := Fresh(g)])
    ensures var db0 := if g.Create? then db[g.table := Fresh(g)] else db;
      && ApplyAll(Ups(g.changes), db0[g.table]).Done? && ExecuteAll(OnAll(g.table, Ups(g.changes)), db0) == ExecuteAll(GroupUp(g), db)
      && ExecuteAll(GroupUp(g), db) == Done(db[g.table := ApplyAll(Ups(g.changes), db0[g.table]).value])
  {
    var db0 := db;
    if g.Create? {
      var create := CreateTable(g.table, g.columns, g.constraints);
      ExecuteSplit([create], OnAll(g.table, Ups(g.changes)), db);
      ExecuteOne(create, db);
      db0 := db[g.table := Fresh(g)];
    } else {
      assert GroupUp(g) == OnAll(g.table, Ups(g.changes));
    }
    RanSmoothly(g.table, Ups(g.changes), db0);
    OneTable(g.table, Ups(g.changes), db0);
    PutAgain(db, g.table, db0[g.table], ApplyAll(Ups(g.changes), db0[g.table]).value);
  }

  /** ... and a downgrade that ran. */
  lemma GroupDownRan(g: Group, db: Db)
    requires g.table in db && ExecuteAll(GroupDown(g), db).Done?
    ensures ApplyAll(Downs(g.changes), db[g.table]).Done?
    ensures ExecuteAll(GroupDown(g), db) ==
      Done(if g.Create? then db - {g.table} else db[g.table := ApplyAll(Downs(g.changes), db[g.table]).value])
  {
    if g.Create? {
      ExecuteSplit(OnAll(g.table, Downs(g.changes)), [DropTable(g.table)], db);
    } else {
      assert GroupDown(g) == OnAll(g.table, Downs(g.changes));
    }
    RanSmoothly(g.table, Downs(g.changes), db);
    OneTable(g.table, Downs(g.changes), db);
    if g.Create? {
      var db1 := db[g.table := ApplyAll(Downs(g.changes), db[g.table]).value];
      ExecuteOne(DropTable(g.table), db1);
      assert db1 - {g.table} == db - {g.table};
    }
  }

  lemma ChangeUndone(c: Change, table: TableName, db: Db)
    requires Sound(db) && table in db && Pre(c, db[table]) && Sensible(c) && ApplyAll(Up(c), db[table]).Done?
    ensures ExecuteAll(OnAll(table, Down(c)), db[table := ApplyAll(Up(c), db[table]).value]) == Done(db)
  {
    var db1 := db[table := ApplyAll(Up(c), db[table]).value];
    DownSmooth(c, table, db);
    OneTable(table, Down(c), db1);
    UndoneExactly(c, db[table]);
    PutBack(db, table, db1[table]);
  }

  /** Changes that ran on a sound database are taken back, whatever refers to the table. */
  lemma {:induction false} ChangesUndone(changes: seq<Change>, table: TableName, db: Db)
    requires Sound(db) && table in db && PreAll(changes, db[table]) && ExecuteAll(OnAll(table, Ups(changes)), db).Done?
    ensures ExecuteAll(OnAll(table, Downs(changes)), ExecuteAll(OnAll(table, Ups(changes)), db).value) == Done(db)
  {
    if changes != [] {
      var c, rest := changes[0], changes[1..];
      OnAllJoin(table, Up(c), Ups(rest));
      OnAllJoin(table, Downs(rest), Down(c));
      ExecuteSplit(OnAll(table, Up(c)), OnAll(table, Ups(rest)), db);
      UpSmooth(c, table, db);
      OneTable(table, Up(c), db);
      MigrationKeepsSound(OnAll(table, Up(c)), db);
      ChangesUndone(rest, table, db[table := ApplyAll(Up(c), db[table]).value]);
      ChangeUndone(c, table, db);
      ExecuteSplit(OnAll(table, Downs(rest)), OnAll(table, Down(c)), ExecuteAll(OnAll(table, Ups(changes)), db).value);
    }
  }

  lemma FreshUnreferenced(g: Group, db: Db)
    requires Sound(db) && g.Create? && g.table !in db
    ensures !Referenced(g.table, db[g.table := Fresh(g)])
  {
    forall from, n | from in db && n in db[from].constraints && db[from].constraints[n].ForeignKey?
      ensures db[from].constraints[n].refTable != g.table
    {
      assert Honoured(db[from].constraints[n], db[from].rows, db);
    }
  }

  lemma GroupUndone(g: Group, db: Db)
    requires Sound(db) && GroupPre(g, db) && ExecuteAll(GroupUp(g), db).Done?
    ensures ExecuteAll(GroupDown(g), ExecuteAll(GroupUp(g), db).value) == Done(db)
  {
    GroupUpRan(g, db);
    var after := ExecuteAll(GroupUp(g), db).value;
    if g.Create? {
      var db0 := db[g.table := Fresh(g)];
      CreateKeepsSound(CreateTable(g.table, g.columns, g.constraints), db);
      ChangesUndone(g.changes, g.table, db0);
      ExecuteSplit(OnAll(g.table, Downs(g.changes)), [DropTable(g.table)], after);
      ExecuteOne(DropTable(g.table), db0);
      FreshUnreferenced(g, db);
      PutBack(db, g.table, Fresh(g));
    } else {
      ChangesUndone(g.changes, g.table, db);
      assert GroupDown(g) == OnAll(g.table, Downs(g.changes));
    }
  }

  lemma PutBack(db: Db, table: TableName, t: Table)
    ensures table in db ==> db[table := t][table := db[table]] == db
    ensures table !in db ==> db[table := t] - {table} == db
  {}

  /** Downgrading right after an upgrade gives back the whole database, rows included. */
  lemma {:induction false} RevisionUndone(groups: seq<Group>, db: Db)
    requires Sound(db) && RevisionPre(groups, db) && ExecuteAll(Upgrade(groups), db).Done?
    ensures ExecuteAll(Downgrade(groups), ExecuteAll(Upgrade(groups), db).value) == Done(db)
  {
    if groups != [] {
      var g := groups[0];
      ExecuteSplit(GroupUp(g), Upgrade(groups[1..]), db);
      var db1 := ExecuteAll(GroupUp(g), db).value;
      MigrationKeepsSound(GroupUp(g), db);
      RevisionUndone(groups[1..], db1);
      GroupUndone(g, db);
      ExecuteSplit(Downgrade(groups[1..]), GroupDown(g), ExecuteAll(Upgrade(groups), db).value);
    }
  }

  lemma {:induction false} UpgradeSnoc(groups: seq<Group>, g: Group)
    ensures Upgrade(groups + [g]) == Upgrade(groups) + GroupUp(g)
  {
    if groups == [] {
      assert [g][1..] == [] && groups + [g] == [g];
    } else {
      assert (groups + [g])[1..] == groups[1..] + [g];
      UpgradeSnoc(groups[1..], g);
      Associate(GroupUp(groups[0]), Upgrade(groups[1..]), GroupUp(g));
    }
  }

  lemma {:induction false} DowngradeSnoc(groups: seq<Group>, g: Group)
    ensures Downgrade(groups + [g]) == GroupDown(g) + Downgrade(groups)
  {
    if groups == [] {
      assert [g][1..] == [] && groups + [g] == [g];
    } else {
      var rest := groups[1..];
      assert (groups + [g])[1..] == rest + [g];
      assert Downgrade(groups + [g]) == Downgrade(rest + [g]) + GroupDown(groups[0]);
      DowngradeSnoc(rest, g);
      Associate(GroupDown(g), Downgrade(rest), GroupDown(groups[0]));
    }
  }

  lemma ExecuteParts(ops: seq<Op>, xs: seq<Op>, ys: seq<Op>, db: Db)
    requires ops == xs + ys
    ensures ExecuteAll(ops, db) == Followed(ExecuteAll(xs, db), ys)
  {
    ExecuteSplit(xs, ys, db);
  }

  /** The last group is upgraded last. */
  lemma LastUpgraded(groups: seq<Group>, b: Db)
    requires groups != []
    ensures ExecuteAll(Upgrade(groups), b) ==
      Followed(ExecuteAll(Upgrade(groups[..|groups| - 1]), b), GroupUp(groups[|groups| - 1]))
  {
    var front, last := groups[..|groups| - 1], groups[|groups| - 1];
    assert groups == front + [last];
    UpgradeSnoc(front, last);
    ExecuteParts(Upgrade(groups), Upgrade(front), GroupUp(last), b);
  }

  /** ... and downgraded first. */
  lemma LastDowngraded(groups: seq<Group>, db: Db)
    requires groups != []
    ensures ExecuteAll(Downgrade(groups), db) ==
      Followed(ExecuteAll(GroupDown(groups[|groups| - 1]), db), Downgrade(groups[..|groups| - 1]))
  {
    var front, last := groups[..|groups| - 1], groups[|groups| - 1];
    assert groups == front + [last];
    DowngradeSnoc(front, last);
    ExecuteParts(Downgrade(groups), GroupDown(last), Downgrade(front), db);
  }

  lemma SameOutside(db: Db, b: Db, g: Group, t: Table, u: Table)
    requires g.table in db && SameSchema(b, if g.Create? then db - {g.table} else db[g.table := t])
    requires SchemaOf(u) == SchemaOf(db[g.table])
    ensures SameSchema(b[g.table := u], db)
  {}

  lemma GroupRedone(g: Group, db: Db, b: Db)
    requires Sound(db) && GroupPost(g, db) && ExecuteAll(GroupDown(g), db).Done?
    requires SameSchema(b, ExecuteAll(GroupDown(g), db).value) && ExecuteAll(GroupUp(g), b).Done?
    ensures SameSchema(ExecuteAll(GroupUp(g), b).value, db)
  {
    GroupDownRan(g, db);
    GroupUpRan(g, b);
    var t := db[g.table];
    var t1 := ApplyAll(Downs(g.changes), t).value;
    var u := if g.Create? then Fresh(g) else b[g.table];
    assert SchemaOf(u) == SchemaOf(t1);
    RedoneAll(g.changes, t, u);
    SameOutside(db, b, g, t1, ApplyAll(Ups(g.changes), u).value);
  }

  /** Upgrading after a downgrade gives back the schema of the whole database. */
  lemma {:induction false} RevisionRedone(groups: seq<Group>, db: Db, b: Db)
    requires Sound(db) && RevisionPost(groups, db) && ExecuteAll(Downgrade(groups), db).Done?
    requires SameSchema(b, ExecuteAll(Downgrade(groups), db).value) && ExecuteAll(Upgrade(groups), b).Done?
    ensures SameSchema(ExecuteAll(Upgrade(groups), b).value, db)
    decreases |groups|
  {
    if groups != [] {
      var front, last := groups[..|groups| - 1], groups[|groups| - 1];
      LastDowngraded(groups, db);
      LastUpgraded(groups, b);
      var db1, b1 := ExecuteAll(GroupDown(last), db).value, ExecuteAll(Upgrade(front), b).value;
      MigrationKeepsSound(GroupDown(last), db);
      RevisionRedone(front, db1, b);
      GroupRedone(last, db, b1);
    }
  }
}
