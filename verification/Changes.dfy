/** The kinds of change a revision makes to one table: what its upgrade and its downgrade
    do, and on exactly which tables the two undo each other. */
module Changes {
  import opened Options
  import opened Schema

  datatype Change =
    | Enforce(column: string)                                   // guarded SET NOT NULL
    | Relax(column: string)                                     // DROP NOT NULL
    | Retype(column: string, from: string, to: string)
    | AddedIndex(name: string, index: Index)
    | RemovedIndex(name: string, index: Index)
    | RemovedConstraint(name: string, constraint: Constraint)
    | RenamedIndex(name: string, newName: string)
    | MergedUnique(constraintName: string, indexName: string, column: string)
    | AddedColumn(column: string, spec: Column)
    | Backfilled(column: string, cond: Cond, indexName: string)

  function PlainIndex(columns: seq<string>): Index {
    Index(columns, false, None)
  }

  function UniqueIndex(column: string): Index {
    Index([column], true, None)
  }

  const FLAG_AT_FIRST := Column("BOOLEAN", false, Some(Bool(true)))
  const FLAG := Column("BOOLEAN", false, None)

  function Up(c: Change): seq<TableOp> {
    match c
    case Enforce(column) => [AssertNoNulls(column), AlterNullable(column, false)]
    case Relax(column) => [AlterNullable(column, true)]
    case Retype(column, _, to) => [AlterType(column, to)]
    case AddedIndex(name, index) => [CreateIndex(name, index)]
    case RemovedIndex(name, _) => [DropIndex(name)]
    case RemovedConstraint(name, _) => [DropConstraint(name)]
    case RenamedIndex(name, newName) => [RenameIndexIfExists(name, newName)]
    case MergedUnique(constraint, index, column) =>
      [DropConstraint(constraint), DropIndex(index), CreateIndex(index, UniqueIndex(column))]
    case AddedColumn(column, spec) => [AddColumn(column, spec)]
    case Backfilled(column, cond, index) =>
      [AddColumn(column, FLAG_AT_FIRST), Update(column, cond, Bool(false), Bool(true)),
       CreateIndex(index, PlainIndex([column])), AlterDefault(column, None)]
  }

  function Down(c: Change): seq<TableOp> {
    match c
    case Enforce(column) => [AlterNullable(column, true)]
    case Relax(column) => [AlterNullable(column, false)]
    case Retype(column, from, _) => [AlterType(column, from)]
    case AddedIndex(name, _) => [DropIndex(name)]
    case RemovedIndex(name, index) => [CreateIndex(name, index)]
    case RemovedConstraint(name, constraint) => [AddConstraint(name, constraint)]
    case RenamedIndex(name, newName) => [RenameIndexIfExists(newName, name)]
    case MergedUnique(constraint, index, column) =>
      [DropIndex(index), CreateIndex(index, PlainIndex([column])), AddConstraint(constraint, Unique([column]))]
    case AddedColumn(column, _) => [DropColumn(column)]
    case Backfilled(column, _, index) => [DropIndex(index), DropColumn(column)]
  }

  /** The change finds the table as it expects it to be before an upgrade. */
  ghost predicate Pre(c: Change, t: Table) {
    match c
    case Enforce(column) => column in t.columns && t.columns[column].nullable
    case Relax(column) => column in t.columns && !t.columns[column].nullable
    case Retype(column, from, _) => column in t.columns && t.columns[column].typ == from
    case AddedIndex(name, _) => name !in t.indexes
    case RemovedIndex(name, index) => name in t.indexes && t.indexes[name] == index
    case RemovedConstraint(name, constraint) => name in t.constraints && t.constraints[name] == constraint
    case RenamedIndex(name, newName) => name in t.indexes || newName !in t.indexes
    case MergedUnique(constraint, index, column) =>
      && constraint in t.constraints && t.constraints[constraint] == Unique([column])
      && index in t.indexes && t.indexes[index] == PlainIndex([column])
    case AddedColumn(column, _) => column !in t.columns
    case Backfilled(column, _, index) => column !in t.columns && index !in t.indexes
  }

  /** The change adds no column, so it leaves the rows and the set of columns alone. */
  predicate KeepsColumns(c: Change) {
    !c.AddedColumn? && !c.Backfilled?
  }

  /** What the change is about is as its upgrade leaves it. */
  ghost predicate InPlace(c: Change, t: Table) {
    match c
    case Enforce(column) => column in t.columns && !t.columns[column].nullable
    case Relax(column) => column in t.columns && t.columns[column].nullable
    case Retype(column, _, to) => column in t.columns && t.columns[column].typ == to
    case AddedIndex(name, index) => name in t.indexes && t.indexes[name] == index
    case RemovedIndex(name, _) => name !in t.indexes
    case RemovedConstraint(name, _) => name !in t.constraints
    case RenamedIndex(name, newName) => newName in t.indexes || name !in t.indexes
    case MergedUnique(constraint, index, column) =>
      constraint !in t.constraints && index in t.indexes && t.indexes[index] == UniqueIndex(column)
    case AddedColumn(column, spec) => column in t.columns && t.columns[column] == spec
    case Backfilled(column, _, index) =>
      && column in t.columns && t.columns[column] == FLAG
      && index in t.indexes && t.indexes[index] == PlainIndex([column])
  }

  /** The indexes that the upgrade creates. */
  function CreatedBy(c: Change): set<string> {
    match c
    case AddedIndex(name, _) => {name}
    case MergedUnique(_, index, _) => {index}
    case Backfilled(_, _, index) => {index}
    case _ => {}
  }

  /** The change finds the table as it expects it to be before a downgrade: dropping a column
      again must not take anything else along. */
  ghost predicate Post(c: Change, t: Table) {
    InPlace(c, t) && (!KeepsColumns(c) ==> Unmentioned(t, {c.column}, CreatedBy(c)))
  }

  /** No index but those excepted, and no constraint, is over one of the columns. */
  ghost predicate Unmentioned(t: Table, columns: set<string>, but: set<string>) {
    && (forall n :: n in t.indexes && n !in but ==> columns !! IndexColumns(t.indexes[n]))
    && (forall n :: n in t.constraints ==> columns !! ConstraintColumns(t.constraints[n]))
  }

  // ---- entries put and taken away ----

  lemma PutAndTake<K, V>(m: map<K, V>, k: K, v: V)
    ensures m[k := v] - {k} == m <==> k !in m
    ensures (m - {k})[k := v] == m <==> k in m && m[k] == v
  {
    if k !in m { assert m[k := v] - {k} == m; }
    if k in m && m[k] == v { assert (m - {k})[k := v] == m; }
    assert (m - {k})[k := v][k] == v;
  }

  lemma PutTwice<K, V>(m: map<K, V>, k: K, v: V, w: V)
    requires k in m
    ensures m[k := v][k := w] == m <==> m[k] == w
  {
    if m[k] == w { assert m[k := v][k := w] == m; }
    assert m[k := v][k := w][k] == w;
  }

  // ---- one change ----

  lemma ApplyThree(op: TableOp, next: TableOp, last: TableOp, t: Table)
    ensures ApplyAll([op, next, last], t) ==
      match Apply(op, t) case Failed(e) => Failed(e) case Done(t') => ApplyAll([next, last], t')
  {
    assert [op, next, last][1..] == [next, last];
  }

  lemma ApplyFour(op: TableOp, next: TableOp, third: TableOp, last: TableOp, t: Table)
    ensures ApplyAll([op, next, third, last], t) ==
      match Apply(op, t) case Failed(e) => Failed(e) case Done(t') => ApplyAll([next, third, last], t')
  {
    assert [op, next, third, last][1..] == [next, third, last];
  }

  function Chained(first: Outcome<Table>, next: TableOp): Outcome<Table> {
    match first case Failed(e) => Failed(e) case Done(t) => Apply(next, t)
  }

  /** Unrolls the operations of a change from a table. */
  lemma Unroll(c: Change, t: Table)
    ensures c.Enforce? ==> ApplyAll(Up(c), t) == Chained(Apply(Up(c)[0], t), Up(c)[1])
    ensures !c.Enforce? && !c.MergedUnique? && !c.Backfilled? ==> ApplyAll(Up(c), t) == Apply(Up(c)[0], t)
    ensures !c.MergedUnique? && !c.Backfilled? ==> ApplyAll(Down(c), t) == Apply(Down(c)[0], t)
  {
    if c.Enforce? { ApplyTwo(Up(c)[0], Up(c)[1], t); }
    if !c.Enforce? && !c.MergedUnique? && !c.Backfilled? { ApplyOne(Up(c)[0], t); }
    if !c.MergedUnique? && !c.Backfilled? { ApplyOne(Down(c)[0], t); }
  }

  /** An upgrade with the change followed by the downgrade. */
  function UpDown(c: Change, t: Table): Outcome<Table> {
    match ApplyAll(Up(c), t)
    case Failed(e) => Failed(e)
    case Done(t') => ApplyAll(Down(c), t')
  }

  /** What else goes when an index and a column are dropped: all that is over the column. */
  lemma DropsWith(t: Table, index: string, column: string)
    ensures var bare := t.(indexes := t.indexes - {index});
      && IndexesWithout(bare, column) == (map n | n in t.indexes && n != index && column !in t.indexes[n].columns
                                                   && t.indexes[n].onlyNonNull != Some(column) :: t.indexes[n])
      && ConstraintsWithout(bare, column) == (map n | n in t.constraints && column !in t.constraints[n].columns :: t.constraints[n])
  {
    forall n | n in t.indexes
      ensures column in IndexColumns(t.indexes[n]) <==> column in t.indexes[n].columns || t.indexes[n].onlyNonNull == Some(column)
    {
    }
  }

  /** A backfill does not compute the flag from itself. */
  predicate Sensible(c: Change) {
    c.Backfilled? ==> c.column !in Mentions(c.cond)
  }

  lemma SameUniqueness(column: string, rows: seq<Row>)
    ensures IndexHolds(UniqueIndex(column), rows) <==> ConstraintHolds(Unique([column]), rows)
  {
    assert forall row :: Covers(UniqueIndex(column), row);
  }

  function Merged(constraint: string, index: string, column: string, t: Table): Table {
    t.(constraints := t.constraints - {constraint}, indexes := t.indexes[index := UniqueIndex(column)])
  }

  function MergedDone(constraint: string, index: string, column: string, t: Table): Outcome<Table> {
    if index in t.indexes && column in t.columns && constraint !in t.constraints && ConstraintHolds(Unique([column]), t.rows)
    then Done(t.(indexes := t.indexes[index := PlainIndex([column])],
                 constraints := t.constraints[constraint := Unique([column])]))
    else Failed(Rejected)
  }

  lemma MergedUp(constraint: string, index: string, column: string, t: Table)
    requires ApplyAll(Up(MergedUnique(constraint, index, column)), t).Done?
    ensures constraint in t.constraints && index in t.indexes && column in t.columns && IndexHolds(UniqueIndex(column), t.rows)
    ensures ApplyAll(Up(MergedUnique(constraint, index, column)), t) == Done(Merged(constraint, index, column, t))
  {
    var ops := Up(MergedUnique(constraint, index, column));
    ApplyThree(ops[0], ops[1], ops[2], t);
    var t1 := Apply(ops[0], t).value;
    ApplyTwo(ops[1], ops[2], t1);
    assert (t.indexes - {index})[index := UniqueIndex(column)] == t.indexes[index := UniqueIndex(column)];
    assert column in IndexColumns(UniqueIndex(column));
  }

  lemma MergedDown(constraint: string, index: string, column: string, t: Table)
    ensures ApplyAll(Down(MergedUnique(constraint, index, column)), t) == MergedDone(constraint, index, column, t)
  {
    var ops := Down(MergedUnique(constraint, index, column));
    ApplyThree(ops[0], ops[1], ops[2], t);
    if index in t.indexes {
      var t1 := Apply(ops[0], t).value;
      ApplyTwo(ops[1], ops[2], t1);
      assert (t.indexes - {index})[index := PlainIndex([column])] == t.indexes[index := PlainIndex([column])];
      assert IndexColumns(PlainIndex([column])) == {column};
      assert ConstraintColumns(Unique([column])) == {column};
    }
  }

  // ---- what a change makes of a table ----

  function SetNullable(t: Table, column: string, nullable: bool): Table {
    if column in t.columns then t.(columns := t.columns[column := t.columns[column].(nullable := nullable)]) else t
  }

  function SetType(t: Table, column: string, typ: string): Table {
    if column in t.columns then t.(columns := t.columns[column := t.columns[column].(typ := typ)]) else t
  }

  function Renamed(t: Table, name: string, newName: string): Table {
    if name in t.indexes then t.(indexes := (t.indexes - {name})[newName := t.indexes[name]]) else t
  }

  /** Without the column, and what is over it. */
  function Bare(t: Table, column: string): Table {
    Table(t.columns - {column}, IndexesWithout(t, column), ConstraintsWithout(t, column), t.rows)
  }

  /** The table after the change's upgrade, or after its downgrade, if that runs; of added
      columns it is only the schema that is meant. */
  function Turned(c: Change, up: bool, t: Table): Table {
    match c
    case Enforce(column) => SetNullable(t, column, !up)
    case Relax(column) => SetNullable(t, column, up)
    case Retype(column, from, to) => SetType(t, column, if up then to else from)
    case AddedIndex(name, index) => t.(indexes := if up then t.indexes[name := index] else t.indexes - {name})
    case RemovedIndex(name, index) => t.(indexes := if up then t.indexes - {name} else t.indexes[name := index])
    case RemovedConstraint(name, con) =>
      t.(constraints := if up then t.constraints - {name} else t.constraints[name := con])
    case RenamedIndex(name, newName) => if up then Renamed(t, name, newName) else Renamed(t, newName, name)
    case MergedUnique(constraint, index, column) =>
      if up then Merged(constraint, index, column, t)
      else t.(indexes := t.indexes[index := PlainIndex([column])], constraints := t.constraints[constraint := Unique([column])])
    case AddedColumn(column, spec) => if up then t.(columns := t.columns[column := spec]) else Bare(t, column)
    case Backfilled(column, _, index) =>
      if up then t.(columns := t.columns[column := FLAG], indexes := t.indexes[index := PlainIndex([column])])
      else Bare(t.(indexes := t.indexes - {index}), column)
  }

  function Ops(c: Change, up: bool): seq<TableOp> {
    if up then Up(c) else Down(c)
  }

  /** What a change that ran must have found. */
  ghost predicate Fits(c: Change, up: bool, t: Table) {
    match c
    case Enforce(column) => column in t.columns
    case Relax(column) => column in t.columns
    case Retype(column, _, _) => column in t.columns
    case AddedIndex(name, _) => if up then name !in t.indexes else name in t.indexes
    case RemovedIndex(name, _) => if up then name in t.indexes else name !in t.indexes
    case RemovedConstraint(name, _) => if up then name in t.constraints else name !in t.constraints
    case RenamedIndex(name, newName) => !(name in t.indexes && newName in t.indexes)
    case MergedUnique(constraint, index, _) => index in t.indexes && (up <==> constraint in t.constraints)
    case _ => true
  }

  lemma TurnedIs(c: Change, up: bool, t: Table)
    requires KeepsColumns(c) && ApplyAll(Ops(c, up), t).Done?
    ensures ApplyAll(Ops(c, up), t) == Done(Turned(c, up, t)) && Fits(c, up, t)
  {
    Unroll(c, t);
    match c
    case MergedUnique(constraint, index, column) =>
      if up { MergedUp(constraint, index, column, t); } else { MergedDown(constraint, index, column, t); }
    case _ =>
  }

  lemma TurnedKeepsRows(c: Change, up: bool, t: Table)
    ensures Turned(c, up, t).rows == t.rows && (KeepsColumns(c) ==> Turned(c, up, t).columns.Keys == t.columns.Keys)
    ensures SchemaOf(Turned(c, up, t)) == Turned(c, up, SchemaOf(t))
  {}

  /** What an added column does to the schema. */
  lemma TurnedSchema(c: Change, up: bool, t: Table)
    requires Sensible(c) && ApplyAll(Ops(c, up), t).Done?
    ensures SchemaOf(ApplyAll(Ops(c, up), t).value) == Turned(c, up, SchemaOf(t))
  {
    if KeepsColumns(c) {
      TurnedIs(c, up, t);
      TurnedKeepsRows(c, up, t);
    } else if c.AddedColumn? {
      Unroll(c, t);
    } else if up {
      BackfillUp(c.column, c.cond, c.indexName, t);
    } else {
      BackfillDown(c.column, c.cond, c.indexName, t);
    }
  }

  // ---- there and back ----

  function Trip(c: Change, up: bool, t: Table): Table {
    Turned(c, !up, Turned(c, up, t))
  }

  ghost predicate Expected(c: Change, up: bool, t: Table) {
    if up then Pre(c, t) else Post(c, t)
  }

  /** A change is undone, or redone, exactly when it found the table as expected. */
  lemma TripExactly(c: Change, up: bool, t: Table)
    requires KeepsColumns(c) && Fits(c, up, t)
    ensures Trip(c, up, t) == t <==> Expected(c, up, t)
  {
    match c
    case Enforce(column) => TripColumn(c, up, t, column);
    case Relax(column) => TripColumn(c, up, t, column);
    case Retype(column, _, _) => TripColumn(c, up, t, column);
    case AddedIndex(name, index) => PutAndTake(t.indexes, name, index);
    case RemovedIndex(name, index) => PutAndTake(t.indexes, name, index);
    case RemovedConstraint(name, con) => PutAndTake(t.constraints, name, con);
    case RenamedIndex(name, newName) =>
      if up { TripRename(t, name, newName); } else { TripRename(t, newName, name); }
    case MergedUnique(constraint, index, column) =>
      PutAndTake(t.constraints, constraint, Unique([column]));
      PutTwice(t.indexes, index, PlainIndex([column]), UniqueIndex(column));
      PutTwice(t.indexes, index, UniqueIndex(column), PlainIndex([column]));
  }

  lemma TripRename(t: Table, name: string, newName: string)
    requires !(name in t.indexes && newName in t.indexes)
    ensures Renamed(Renamed(t, name, newName), newName, name) == t <==> name in t.indexes || newName !in t.indexes
  {
    if name in t.indexes {
      var there := (t.indexes - {name})[newName := t.indexes[name]];
      assert (there - {newName})[name := there[newName]] == t.indexes;
    } else if newName in t.indexes {
      assert name in Renamed(t, newName, name).indexes;
    }
  }

  lemma TripColumn(c: Change, up: bool, t: Table, column: string)
    requires (c.Enforce? || c.Relax? || c.Retype?) && column == c.column && column in t.columns
    ensures Trip(c, up, t) == t <==> Trip(c, up, t).columns[column] == t.columns[column]
  {
    var v, w := Turned(c, up, t).columns[column], Trip(c, up, t).columns[column];
    PutTwice(t.columns, column, v, w);
  }

  /** After an expected upgrade the downgrade runs. */
  lemma UndoRuns(c: Change, t: Table)
    requires KeepsColumns(c) && WellFormed(t) && Pre(c, t) && Fits(c, true, t)
    ensures ApplyAll(Down(c), Turned(c, true, t)).Done?
  {
    if c.MergedUnique? {
      MergedUndoRuns(c.constraintName, c.indexName, c.column, t);
    } else {
      Unroll(c, Turned(c, true, t));
      OneUndoRuns(c, t);
    }
  }

  lemma OneUndoRuns(c: Change, t: Table)
    requires KeepsColumns(c) && !c.MergedUnique? && WellFormed(t) && Pre(c, t) && Fits(c, true, t)
    ensures Apply(Down(c)[0], Turned(c, true, t)).Done?
  {}

  lemma MergedUndoRuns(constraint: string, index: string, column: string, t: Table)
    requires WellFormed(t) && Pre(MergedUnique(constraint, index, column), t)
    ensures ApplyAll(Down(MergedUnique(constraint, index, column)), Merged(constraint, index, column, t)).Done?
  {
    MergedDown(constraint, index, column, Merged(constraint, index, column, t));
    assert column in IndexColumns(t.indexes[index]);
  }

  /** Downgrading after an upgrade gives the very same table back, rows included, exactly
      when the upgrade found the table as expected. */
  lemma UndoneExactly(c: Change, t: Table)
    requires WellFormed(t) && Sensible(c) && ApplyAll(Up(c), t).Done?
    ensures UpDown(c, t) == Done(t) <==> Pre(c, t)
  {
    match c
    case AddedColumn(column, spec) =>
      Unroll(c, t);
      Unroll(c, ApplyAll(Up(c), t).value);
      ColumnUndone(column, spec, t);
    case Backfilled(column, cond, index) => BackfillUndone(column, cond, index, t);
    case _ =>
      TurnedIs(c, true, t);
      TripExactly(c, true, t);
      if Pre(c, t) { UndoRuns(c, t); }
      if UpDown(c, t).Done? { TurnedIs(c, false, Turned(c, true, t)); }
  }

  // ---- changes that add a column ----

  lemma ColumnUndone(column: string, spec: Column, t: Table)
    requires WellFormed(t) && Apply(AddColumn(column, spec), t).Done?
    ensures Apply(DropColumn(column), Apply(AddColumn(column, spec), t).value) == Done(t)
  {
    var t' := Apply(AddColumn(column, spec), t).value;
    assert t'.columns - {column} == t.columns;
    assert IndexesWithout(t', column) == t.indexes;
    assert ConstraintsWithout(t', column) == t.constraints;
    DropsBack(t.rows, t'.rows, column, t.columns.Keys);
  }

  /** Rows that agree outside a new column are the old rows once it is dropped. */
  lemma DropsBack(rows: seq<Row>, rows': seq<Row>, column: string, keys: set<string>)
    requires |rows| == |rows'| && column !in keys
    requires forall i :: 0 <= i < |rows| ==> rows[i].Keys == keys && rows'[i] == rows[i][column := Cell(rows'[i], column)]
    ensures DropCells(rows', column) == rows
  {
    forall i | 0 <= i < |rows| ensures rows'[i] - {column} == rows[i] {
      assert (rows'[i] - {column}).Keys == keys;
    }
  }

  /** The rows with the new flag: false exactly where the condition is true. */
  function Flagged(rows: seq<Row>, column: string, cond: Cond): seq<Row> {
    seq(|rows|, i requires 0 <= i < |rows| => rows[i][column := Bool(!Holds(cond, rows[i]).True?)])
  }

  lemma {:induction false} HoldsElsewhere(cond: Cond, row: Row, column: string, value: Value)
    requires column !in Mentions(cond)
    ensures Holds(cond, row[column := value]) == Holds(cond, row)
  {
    if cond.And? {
      HoldsElsewhere(cond.left, row, column, value);
      HoldsElsewhere(cond.right, row, column, value);
    }
  }

  /** What the four steps of a backfilled column come to. */
  function Backfill(column: string, cond: Cond, index: string, t: Table): Table {
    Table(t.columns[column := FLAG], t.indexes[index := PlainIndex([column])], t.constraints, Flagged(t.rows, column, cond))
  }

  lemma FlagsComputed(column: string, cond: Cond, rows: seq<Row>)
    requires column !in Mentions(cond)
    ensures UpdateCells(SetCells(rows, column, Bool(true)), column, cond, Bool(false), Bool(true)) == Flagged(rows, column, cond)
  {
    forall i | 0 <= i < |rows|
      ensures UpdateCells(SetCells(rows, column, Bool(true)), column, cond, Bool(false), Bool(true))[i] == Flagged(rows, column, cond)[i]
    {
      HoldsElsewhere(cond, rows[i], column, Bool(true));
    }
  }

  lemma BackfillUp(column: string, cond: Cond, index: string, t: Table)
    requires column !in Mentions(cond) && ApplyAll(Up(Backfilled(column, cond, index)), t).Done?
    ensures column !in t.columns && index !in t.indexes && Mentions(cond) <= t.columns.Keys
    ensures ApplyAll(Up(Backfilled(column, cond, index)), t) == Done(Backfill(column, cond, index, t))
  {
    var ops := Up(Backfilled(column, cond, index));
    ApplyFour(ops[0], ops[1], ops[2], ops[3], t);
    var t1 := Apply(ops[0], t).value;
    ApplyThree(ops[1], ops[2], ops[3], t1);
    var t2 := Apply(ops[1], t1).value;
    ApplyTwo(ops[2], ops[3], t2);
    FlagsComputed(column, cond, t.rows);
    assert t1.columns[column := FLAG] == t.columns[column := FLAG];
    assert Mentions(cond) <= t1.columns.Keys;
  }

  lemma BackfillDown(column: string, cond: Cond, index: string, t: Table)
    ensures ApplyAll(Down(Backfilled(column, cond, index)), t) ==
      if index in t.indexes && column in t.columns
      then Apply(DropColumn(column), t.(indexes := t.indexes - {index})) else Failed(Rejected)
  {
    var ops := Down(Backfilled(column, cond, index));
    ApplyTwo(ops[0], ops[1], t);
  }

  lemma BackfillUndone(column: string, cond: Cond, index: string, t: Table)
    requires WellFormed(t) && column !in Mentions(cond)
    requires ApplyAll(Up(Backfilled(column, cond, index)), t).Done?
    ensures UpDown(Backfilled(column, cond, index), t) == Done(t) <==> Pre(Backfilled(column, cond, index), t)
  {
    BackfillUp(column, cond, index, t);
    BackfillDown(column, cond, index, Backfill(column, cond, index, t));
    BackfillBack(column, cond, index, t);
  }

  lemma BackfillBack(column: string, cond: Cond, index: string, t: Table)
    requires WellFormed(t) && column !in t.columns && index !in t.indexes
    ensures var t' := Backfill(column, cond, index, t);
      Apply(DropColumn(column), t'.(indexes := t'.indexes - {index})) == Done(t)
  {
    var t' := Backfill(column, cond, index, t);
    var bare := t'.(indexes := t'.indexes - {index});
    assert bare.indexes == t.indexes;
    assert bare.columns - {column} == t.columns;
    assert IndexesWithout(bare, column) == t.indexes;
    assert ConstraintsWithout(bare, column) == t.constraints;
    DropsBack(t.rows, t'.rows, column, t.columns.Keys);
  }

  /** Upgrading after a downgrade gives the schema back exactly when the downgrade found it
      as expected; `u` has the schema the downgrade left, whatever its rows. */
  lemma RedoneExactly(c: Change, t: Table, u: Table)
    requires Sensible(c) && ApplyAll(Down(c), t).Done?
    requires SchemaOf(u) == SchemaOf(ApplyAll(Down(c), t).value) && ApplyAll(Up(c), u).Done?
    ensures SchemaOf(ApplyAll(Up(c), u).value) == SchemaOf(t) <==> Post(c, t)
  {
    match c
    case AddedColumn(column, spec) =>
      Unroll(c, t);
      Unroll(c, u);
      ColumnRedone(column, spec, t, u);
    case Backfilled(column, cond, index) => BackfillRedone(column, cond, index, t, u);
    case _ =>
      TurnedIs(c, false, t);
      TurnedIs(c, true, u);
      TurnedKeepsRows(c, false, t);
      TurnedKeepsRows(c, true, u);
      TripExactly(c, false, SchemaOf(t));
  }

  lemma ColumnRedone(column: string, spec: Column, t: Table, u: Table)
    requires Apply(DropColumn(column), t).Done? && SchemaOf(u) == SchemaOf(Apply(DropColumn(column), t).value)
    requires Apply(AddColumn(column, spec), u).Done?
    ensures SchemaOf(Apply(AddColumn(column, spec), u).value) == SchemaOf(t) <==> Post(AddedColumn(column, spec), t)
  {
    var u' := Apply(AddColumn(column, spec), u).value;
    assert u'.columns == t.columns[column := spec];
    if Post(AddedColumn(column, spec), t) {
      assert t.columns[column := t.columns[column]] == t.columns;
      assert IndexesWithout(t, column) == t.indexes;
      assert ConstraintsWithout(t, column) == t.constraints;
    }
    if SchemaOf(u') == SchemaOf(t) {
      assert forall n :: n in t.indexes ==> n in IndexesWithout(t, column);
      assert forall n :: n in t.constraints ==> n in ConstraintsWithout(t, column);
    }
  }

  lemma BackfillRedone(column: string, cond: Cond, index: string, t: Table, u: Table)
    requires column !in Mentions(cond)
    requires var c := Backfilled(column, cond, index);
      && ApplyAll(Down(c), t).Done? && SchemaOf(u) == SchemaOf(ApplyAll(Down(c), t).value) && ApplyAll(Up(c), u).Done?
    ensures var c := Backfilled(column, cond, index);
      SchemaOf(ApplyAll(Up(c), u).value) == SchemaOf(t) <==> Post(c, t)
  {
    var c := Backfilled(column, cond, index);
    BackfillDown(column, cond, index, t);
    BackfillUp(column, cond, index, u);
    var bare := t.(indexes := t.indexes - {index});
    BackfillSchema(column, index, t, Table(t.columns[column := FLAG], IndexesWithout(bare, column)[index := PlainIndex([column])],
                                           ConstraintsWithout(bare, column), []));
    assert ApplyAll(Up(c), u).value.columns == t.columns[column := FLAG];
  }

  lemma BackfillSchema(column: string, index: string, t: Table, s: Table)
    requires column in t.columns && index in t.indexes
    requires var bare := t.(indexes := t.indexes - {index});
      s == Table(t.columns[column := FLAG], IndexesWithout(bare, column)[index := PlainIndex([column])], ConstraintsWithout(bare, column), [])
    ensures s == SchemaOf(t) <==>
      t.columns[column] == FLAG && t.indexes[index] == PlainIndex([column]) && Unmentioned(t, {column}, {index})
  {
    var bare := t.(indexes := t.indexes - {index});
    if t.columns[column] == FLAG && t.indexes[index] == PlainIndex([column]) && Unmentioned(t, {column}, {index}) {
      assert t.columns[column := t.columns[column]] == t.columns;
      assert IndexesWithout(bare, column) == bare.indexes;
      assert bare.indexes[index := t.indexes[index]] == t.indexes;
      assert ConstraintsWithout(bare, column) == t.constraints;
    }
    if s == SchemaOf(t) {
      forall n | n in t.indexes && n != index ensures column !in IndexColumns(t.indexes[n]) {
        assert n in IndexesWithout(bare, column);
      }
      assert forall n :: n in t.constraints ==> n in ConstraintsWithout(bare, column);
    }
  }
}
