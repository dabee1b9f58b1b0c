/** Tables with their rows, and the schema operations that migrations are made of. */
module Schema {
  import opened Options

  /** The tables the modelled revisions name, and any other. */
  datatype TableName =
    | AgentEvents | AgentRuns | Agents | AutomationLogs | BackgroundTaskLeases | ExecutionUnits | FlowRuns
    | LoopAdjustments | MemoryMetrics | MemoryNodes | MemoryTraces | NodusScheduledJobs | NodusTraceEvents
    | Playbooks | RequestMetrics | ScoreHistory | ScoreSnapshots | Strategies | SystemEvents | Tasks | UserScores
    | FreelanceOrders | FreelancePaymentRecords | FreelanceRefundRecords | FreelanceWebhookEvents | Users
    | OtherTable(name: string)

  datatype Value = Null | Bool(b: bool) | Text(s: string)

  type Row = map<string, Value>

  datatype Column = Column(typ: string, nullable: bool, default: Option<Value>)

  /** `onlyNonNull` restricts a partial index to rows where that column is not NULL. */
  datatype Index = Index(columns: seq<string>, unique: bool, onlyNonNull: Option<string>)

  datatype Constraint =
    | Unique(columns: seq<string>)
    | PrimaryKey(columns: seq<string>)
    | ForeignKey(columns: seq<string>, refTable: TableName, refColumns: seq<string>, onDelete: string)

  datatype Table = Table(columns: map<string, Column>, indexes: map<string, Index>,
                         constraints: map<string, Constraint>, rows: seq<Row>)

  // ---- SQL conditions, with three truth values ----

  datatype Truth = True | False | Unknown

  datatype Cond = NotNull(column: string) | EqualsText(column: string, text: string) | And(left: Cond, right: Cond)

  function Cell(row: Row, column: string): Value {
    if column in row then row[column] else Null
  }

  function Holds(cond: Cond, row: Row): Truth {
    match cond
    case NotNull(column) => if Cell(row, column).Null? then False else True
    case EqualsText(column, text) =>
      if Cell(row, column).Null? then Unknown else if Cell(row, column) == Text(text) then True else False
    case And(left, right) =>
      var l := Holds(left, row);
      var r := Holds(right, row);
      if l.False? || r.False? then False else if l.True? && r.True? then True else Unknown
  }

  function Mentions(cond: Cond): set<string> {
    match cond
    case NotNull(column) => {column}
    case EqualsText(column, _) => {column}
    case And(left, right) => Mentions(left) + Mentions(right)
  }

  // ---- operations on one table ----

  datatype TableOp =
    | AssertNoNulls(column: string)
    | AlterNullable(column: string, nullable: bool)
    | AlterType(column: string, typ: string)
    | AlterDefault(column: string, default: Option<Value>)
    | AddColumn(column: string, spec: Column)
    | DropColumn(column: string)
    | Update(column: string, cond: Cond, whenTrue: Value, otherwise: Value)
    | CreateIndex(name: string, index: Index)
    | DropIndex(name: string)
    | RenameIndexIfExists(name: string, newName: string)
    | AddConstraint(name: string, constraint: Constraint)
    | DropConstraint(name: string)

  /** A guard raises with the number of offending rows; the database rejects the rest. */
  datatype Error = NullsFound(count: nat) | Rejected

  datatype Outcome<T> = Done(value: T) | Failed(error: Error)

  function CountNulls(rows: seq<Row>, column: string): nat {
    if rows == [] then 0 else (if Cell(rows[0], column).Null? then 1 else 0) + CountNulls(rows[1..], column)
  }

  predicate NoNulls(rows: seq<Row>, column: string) {
    forall i :: 0 <= i < |rows| ==> !Cell(rows[i], column).Null?
  }

  /** Two rows clash on the columns: all of them are non-NULL and equal. */
  predicate Clash(a: Row, b: Row, columns: seq<string>) {
    forall i :: 0 <= i < |columns| ==> !Cell(a, columns[i]).Null? && Cell(a, columns[i]) == Cell(b, columns[i])
  }

  predicate Covers(index: Index, row: Row) {
    index.onlyNonNull.None? || !Cell(row, index.onlyNonNull.value).Null?
  }

  predicate IndexHolds(index: Index, rows: seq<Row>) {
    index.unique ==>
      forall i, j :: 0 <= i < j < |rows| && Covers(index, rows[i]) && Covers(index, rows[j]) ==>
        !Clash(rows[i], rows[j], index.columns)
  }

  /** What a constraint asks of the table's own rows; a foreign key also looks at another table. */
  predicate ConstraintHolds(con: Constraint, rows: seq<Row>) {
    !con.ForeignKey? ==> forall i, j :: 0 <= i < j < |rows| ==> !Clash(rows[i], rows[j], con.columns)
  }

  function IndexColumns(index: Index): set<string> {
    (set c | c in index.columns) + if index.onlyNonNull.Some? then {index.onlyNonNull.value} else {}
  }

  function ConstraintColumns(con: Constraint): set<string> {
    set c | c in con.columns
  }

  function SetCells(rows: seq<Row>, column: string, value: Value): seq<Row> {
    seq(|rows|, i requires 0 <= i < |rows| => rows[i][column := value])
  }

  function DropCells(rows: seq<Row>, column: string): seq<Row> {
    seq(|rows|, i requires 0 <= i < |rows| => rows[i] - {column})
  }

  function UpdateCells(rows: seq<Row>, column: string, cond: Cond, whenTrue: Value, otherwise: Value): seq<Row> {
    seq(|rows|, i requires 0 <= i < |rows| =>
      rows[i][column := if Holds(cond, rows[i]).True? then whenTrue else otherwise])
  }

  function IndexesWithout(t: Table, column: string): map<string, Index> {
    map n | n in t.indexes && column !in IndexColumns(t.indexes[n]) :: t.indexes[n]
  }

  function ConstraintsWithout(t: Table, column: string): map<string, Constraint> {
    map n | n in t.constraints && column !in ConstraintColumns(t.constraints[n]) :: t.constraints[n]
  }

  /** What one operation does to a table, or why it fails. */
  function Apply(op: TableOp, t: Table): Outcome<Table> {
    match op
    case AssertNoNulls(c) =>
      if c !in t.columns then Failed(Rejected)
      else if CountNulls(t.rows, c) > 0 then Failed(NullsFound(CountNulls(t.rows, c)))
      else Done(t)
    case AlterNullable(c, nullable) =>
      if c !in t.columns || (!nullable && !NoNulls(t.rows, c)) then Failed(Rejected)
      else Done(t.(columns := t.columns[c := t.columns[c].(nullable := nullable)]))
    case AlterType(c, typ) =>
      if c !in t.columns then Failed(Rejected)
      else Done(t.(columns := t.columns[c := t.columns[c].(typ := typ)]))
    case AlterDefault(c, default) =>
      if c !in t.columns then Failed(Rejected)
      else Done(t.(columns := t.columns[c := t.columns[c].(default := default)]))
    case AddColumn(c, spec) =>
      var value := if spec.default.Some? then spec.default.value else Null;
      if c in t.columns || (!spec.nullable && value.Null? && t.rows != []) then Failed(Rejected)
      else Done(t.(columns := t.columns[c := spec], rows := SetCells(t.rows, c, value)))
    case DropColumn(c) =>
      if c !in t.columns then Failed(Rejected)
      else Done(Table(t.columns - {c}, IndexesWithout(t, c), ConstraintsWithout(t, c), DropCells(t.rows, c)))
    case Update(c, cond, whenTrue, otherwise) =>
      var rows := UpdateCells(t.rows, c, cond, whenTrue, otherwise);
      if c !in t.columns || !(Mentions(cond) <= t.columns.Keys) || (!t.columns[c].nullable && !NoNulls(rows, c))
         || !RulesHold(t.(rows := rows)) then Failed(Rejected)
      else Done(t.(rows := rows))
    case CreateIndex(n, index) =>
      if n in t.indexes || !(IndexColumns(index) <= t.columns.Keys) || !IndexHolds(index, t.rows) then Failed(Rejected)
      else Done(t.(indexes := t.indexes[n := index]))
    case DropIndex(n) =>
      if n !in t.indexes then Failed(Rejected) else Done(t.(indexes := t.indexes - {n}))
    case RenameIndexIfExists(n, m) =>
      if n !in t.indexes then Done(t)
      else if m in t.indexes then Failed(Rejected)
      else Done(t.(indexes := (t.indexes - {n})[m := t.indexes[n]]))
    case AddConstraint(n, con) =>
      if n in t.constraints || !(ConstraintColumns(con) <= t.columns.Keys) || !ConstraintHolds(con, t.rows) then Failed(Rejected)
      else Done(t.(constraints := t.constraints[n := con]))
    case DropConstraint(n) =>
      if n !in t.constraints then Failed(Rejected) else Done(t.(constraints := t.constraints - {n}))
  }

  predicate RulesHold(t: Table) {
    && (forall n :: n in t.indexes ==> IndexHolds(t.indexes[n], t.rows))
    && (forall n :: n in t.constraints ==> ConstraintHolds(t.constraints[n], t.rows))
  }

  function ApplyAll(ops: seq<TableOp>, t: Table): Outcome<Table> {
    if ops == [] then Done(t)
    else
      match Apply(ops[0], t)
      case Failed(e) => Failed(e)
      case Done(t') => ApplyAll(ops[1..], t')
  }

  // ---- well-formed tables ----

  /** Rows have exactly the table's columns and no NULL where none is allowed; unique rules
      hold of the rows; indexes and constraints are over existing columns. */
  ghost predicate WellFormed(t: Table) {
    && (forall i :: 0 <= i < |t.rows| ==> t.rows[i].Keys == t.columns.Keys)
    && (forall c :: c in t.columns && !t.columns[c].nullable ==> NoNulls(t.rows, c))
    && RulesHold(t)
    && (forall n :: n in t.indexes ==> IndexColumns(t.indexes[n]) <= t.columns.Keys)
    && (forall n :: n in t.constraints ==> ConstraintColumns(t.constraints[n]) <= t.columns.Keys)
  }

  /** The rows agree on the columns. */
  ghost predicate Agree(rows: seq<Row>, rows': seq<Row>, columns: set<string>) {
    |rows| == |rows'| && forall i, c :: 0 <= i < |rows| && c in columns ==> Cell(rows[i], c) == Cell(rows'[i], c)
  }

  lemma AgreeFewer(rows: seq<Row>, rows': seq<Row>, columns: set<string>, fewer: set<string>)
    requires Agree(rows, rows', columns) && fewer <= columns
    ensures Agree(rows, rows', fewer)
  {
    forall i, c | 0 <= i < |rows| && c in fewer ensures Cell(rows[i], c) == Cell(rows'[i], c) {
      assert c in columns;
    }
  }

  lemma AgreeKeepsIndex(index: Index, rows: seq<Row>, rows': seq<Row>)
    requires Agree(rows, rows', IndexColumns(index)) && IndexHolds(index, rows)
    ensures IndexHolds(index, rows')
  {
    if index.unique {
      forall i, j | 0 <= i < j < |rows'| && Covers(index, rows'[i]) && Covers(index, rows'[j])
        ensures !Clash(rows'[i], rows'[j], index.columns)
      {
        assert Covers(index, rows[i]) && Covers(index, rows[j]);
        var k :| 0 <= k < |index.columns| &&
          !(!Cell(rows[i], index.columns[k]).Null? && Cell(rows[i], index.columns[k]) == Cell(rows[j], index.columns[k]));
        assert index.columns[k] in IndexColumns(index);
      }
    }
  }

  lemma AgreeKeepsConstraint(con: Constraint, rows: seq<Row>, rows': seq<Row>)
    requires Agree(rows, rows', ConstraintColumns(con)) && ConstraintHolds(con, rows)
    ensures ConstraintHolds(con, rows')
  {
    if !con.ForeignKey? {
      forall i, j | 0 <= i < j < |rows'| ensures !Clash(rows'[i], rows'[j], con.columns) {
        var k :| 0 <= k < |con.columns| &&
          !(!Cell(rows[i], con.columns[k]).Null? && Cell(rows[i], con.columns[k]) == Cell(rows[j], con.columns[k]));
        assert con.columns[k] in ConstraintColumns(con);
      }
    }
  }

  /** Changing one column's cells keeps every rule that does not look at it. */
  lemma OtherRulesKept(t: Table, rows: seq<Row>, column: string)
    requires WellFormed(t) && Agree(t.rows, rows, t.columns.Keys - {column})
    ensures forall n :: n in t.indexes && column !in IndexColumns(t.indexes[n]) ==> IndexHolds(t.indexes[n], rows)
    ensures forall n :: n in t.constraints && column !in ConstraintColumns(t.constraints[n]) ==> ConstraintHolds(t.constraints[n], rows)
  {
    forall n | n in t.indexes && column !in IndexColumns(t.indexes[n]) ensures IndexHolds(t.indexes[n], rows) {
      AgreeFewer(t.rows, rows, t.columns.Keys - {column}, IndexColumns(t.indexes[n]));
      AgreeKeepsIndex(t.indexes[n], t.rows, rows);
    }
    forall n | n in t.constraints && column !in ConstraintColumns(t.constraints[n]) ensures ConstraintHolds(t.constraints[n], rows) {
      AgreeFewer(t.rows, rows, t.columns.Keys - {column}, ConstraintColumns(t.constraints[n]));
      AgreeKeepsConstraint(t.constraints[n], t.rows, rows);
    }
  }

  lemma {:induction false} CountsNulls(rows: seq<Row>, column: string)
    ensures CountNulls(rows, column) == 0 <==> NoNulls(rows, column)
  {
    if rows != [] {
      var rest := rows[1..];
      CountsNulls(rest, column);
      assert rows == [rows[0]] + rest;
      if !Cell(rows[0], column).Null? && NoNulls(rest, column) {
        forall i | 0 <= i < |rows| ensures !Cell(rows[i], column).Null? {
          if i > 0 { assert rows[i] == rest[i - 1]; }
        }
      }
      if NoNulls(rows, column) {
        forall i | 0 <= i < |rest| ensures !Cell(rest[i], column).Null? { assert rest[i] == rows[i + 1]; }
      }
    }
  }

  // ---- when an operation is rejected, told by the cells ----

  ghost predicate HasValue(row: Row, column: string) {
    column in row && row[column] != Null
  }

  /** Two rows have the same values, none of them NULL, in all of the columns. */
  ghost predicate SameValues(a: Row, b: Row, columns: seq<string>) {
    forall i :: 0 <= i < |columns| ==> HasValue(a, columns[i]) && HasValue(b, columns[i]) && a[columns[i]] == b[columns[i]]
  }

  /** An index can be created exactly when its name is free, the columns it is over and the one
      that restricts it are there, and, if it is unique, no two rows that it covers have the
      same values. */
  lemma CreateIndexExactly(name: string, index: Index, t: Table)
    ensures Apply(CreateIndex(name, index), t).Done? <==>
      && name !in t.indexes
      && (forall c :: c in index.columns ==> c in t.columns)
      && (index.onlyNonNull.Some? ==> index.onlyNonNull.value in t.columns)
      && (index.unique ==> forall i, j :: 0 <= i < j < |t.rows| && SameValues(t.rows[i], t.rows[j], index.columns) ==>
            index.onlyNonNull.Some?
            && !(HasValue(t.rows[i], index.onlyNonNull.value) && HasValue(t.rows[j], index.onlyNonNull.value)))
  {
    forall i, j | 0 <= i < j < |t.rows|
      ensures SameValues(t.rows[i], t.rows[j], index.columns) <==> Clash(t.rows[i], t.rows[j], index.columns)
    {
      ClashExactly(t.rows[i], t.rows[j], index.columns);
    }
    assert forall c :: c in IndexColumns(index) <==> c in index.columns || index.onlyNonNull == Some(c);
  }

  lemma ClashExactly(a: Row, b: Row, columns: seq<string>)
    ensures SameValues(a, b, columns) <==> Clash(a, b, columns)
  {}

  /** A unique constraint or a primary key can be declared exactly when its name is free, its
      columns are there, and no two rows have the same values in them. */
  lemma AddConstraintExactly(name: string, con: Constraint, t: Table)
    requires !con.ForeignKey?
    ensures Apply(AddConstraint(name, con), t).Done? <==>
      && name !in t.constraints
      && (forall c :: c in con.columns ==> c in t.columns)
      && forall i, j :: 0 <= i < j < |t.rows| ==> !SameValues(t.rows[i], t.rows[j], con.columns)
  {
    forall i, j | 0 <= i < j < |t.rows|
      ensures SameValues(t.rows[i], t.rows[j], con.columns) <==> Clash(t.rows[i], t.rows[j], con.columns)
    {
      ClashExactly(t.rows[i], t.rows[j], con.columns);
    }
    assert forall c :: c in ConstraintColumns(con) <==> c in con.columns;
  }

  lemma AddKeepsWellFormed(t: Table, c: string, spec: Column, t': Table)
    requires WellFormed(t) && Apply(AddColumn(c, spec), t) == Done(t')
    ensures WellFormed(t')
  {
    OtherRulesKept(t, t'.rows, c);
    forall d | d in t'.columns && !t'.columns[d].nullable ensures NoNulls(t'.rows, d) {
      if d != c { assert NoNulls(t.rows, d); }
    }
  }

  lemma DropKeepsWellFormed(t: Table, c: string, t': Table)
    requires WellFormed(t) && Apply(DropColumn(c), t) == Done(t')
    ensures WellFormed(t')
  {
    OtherRulesKept(t, t'.rows, c);
    forall d | d in t'.columns && !t'.columns[d].nullable ensures NoNulls(t'.rows, d) {
      assert NoNulls(t.rows, d);
    }
  }

  lemma UpdateKeepsWellFormed(t: Table, op: TableOp, t': Table)
    requires op.Update? && WellFormed(t) && Apply(op, t) == Done(t')
    ensures WellFormed(t')
  {
    forall d | d in t'.columns && !t'.columns[d].nullable ensures NoNulls(t'.rows, d) {
      if d != op.column { assert NoNulls(t.rows, d); }
    }
  }

  lemma AlterKeepsWellFormed(t: Table, op: TableOp, t': Table)
    requires op.AssertNoNulls? || op.AlterNullable? || op.AlterType? || op.AlterDefault?
    requires WellFormed(t) && Apply(op, t) == Done(t')
    ensures WellFormed(t')
  {
    assert t'.columns.Keys == t.columns.Keys;
  }

  lemma RulesKeepWellFormed(t: Table, op: TableOp, t': Table)
    requires op.CreateIndex? || op.DropIndex? || op.RenameIndexIfExists? || op.AddConstraint? || op.DropConstraint?
    requires WellFormed(t) && Apply(op, t) == Done(t')
    ensures WellFormed(t')
  {}

  /** An operation either fails or keeps the table well formed. */
  lemma StepKeepsWellFormed(op: TableOp, t: Table)
    requires WellFormed(t)
    ensures Apply(op, t).Done? ==> WellFormed(Apply(op, t).value)
  {
    if Apply(op, t).Done? {
      var t' := Apply(op, t).value;
      if op.AddColumn? {
        AddKeepsWellFormed(t, op.column, op.spec, t');
      } else if op.DropColumn? {
        DropKeepsWellFormed(t, op.column, t');
      } else if op.Update? {
        UpdateKeepsWellFormed(t, op, t');
      } else if op.AssertNoNulls? || op.AlterNullable? || op.AlterType? || op.AlterDefault? {
        AlterKeepsWellFormed(t, op, t');
      } else {
        RulesKeepWellFormed(t, op, t');
      }
    }
  }

  lemma {:induction false} RunKeepsWellFormed(ops: seq<TableOp>, t: Table)
    requires WellFormed(t)
    ensures ApplyAll(ops, t).Done? ==> WellFormed(ApplyAll(ops, t).value)
  {
    if ops != [] {
      StepKeepsWellFormed(ops[0], t);
      if Apply(ops[0], t).Done? {
        RunKeepsWellFormed(ops[1..], Apply(ops[0], t).value);
      }
    }
  }

  lemma ApplyOne(op: TableOp, t: Table)
    ensures ApplyAll([op], t) == Apply(op, t)
  {
    assert [op][1..] == [];
  }

  lemma ApplyTwo(op: TableOp, next: TableOp, t: Table)
    ensures ApplyAll([op, next], t) == match Apply(op, t) case Failed(e) => Failed(e) case Done(t') => Apply(next, t')
  {
    assert [op, next][1..] == [next];
    if Apply(op, t).Done? { ApplyOne(next, Apply(op, t).value); }
  }

  /** The positions of the rows without a value in the column. */
  function NullsAt(rows: seq<Row>, column: string): set<nat> {
    set i | 0 <= i < |rows| && (column !in rows[i] || rows[i][column] == Null)
  }

  lemma {:induction false} CountSnoc(rows: seq<Row>, last: Row, column: string)
    ensures CountNulls(rows + [last], column) == CountNulls(rows, column) + if Cell(last, column).Null? then 1 else 0
  {
    if rows == [] {
      assert rows + [last] == [last] && [last][1..] == [];
    } else {
      assert (rows + [last])[1..] == rows[1..] + [last];
      CountSnoc(rows[1..], last, column);
    }
  }

  lemma NullsSnoc(rows: seq<Row>, last: Row, column: string)
    ensures NullsAt(rows + [last], column) == NullsAt(rows, column) + if Cell(last, column).Null? then {|rows|} else {}
    ensures |rows| !in NullsAt(rows, column)
  {
    var more := rows + [last];
    assert forall i :: 0 <= i < |rows| ==> more[i] == rows[i];
  }

  lemma {:induction false} CountNullsExactly(rows: seq<Row>, column: string)
    ensures CountNulls(rows, column) == |NullsAt(rows, column)|
    decreases |rows|
  {
    if rows == [] {
      assert NullsAt(rows, column) == {};
    } else {
      var n := |rows| - 1;
      var front, last := rows[..n], rows[n];
      assert rows == front + [last];
      CountSnoc(front, last, column);
      CountNullsExactly(front, column);
      NullsSnoc(front, last, column);
    }
  }

  /** What makes a SET NOT NULL step safe: once the guard has passed, the database accepts it. */
  lemma GuardedEnforceNeverRejected(c: string, t: Table)
    requires c in t.columns
    ensures match ApplyAll([AssertNoNulls(c), AlterNullable(c, false)], t)
      case Done(_) => NullsAt(t.rows, c) == {}
      case Failed(e) => e == NullsFound(|NullsAt(t.rows, c)|) && NullsAt(t.rows, c) != {}
  {
    CountsNulls(t.rows, c);
    CountNullsExactly(t.rows, c);
    ApplyTwo(AssertNoNulls(c), AlterNullable(c, false), t);
  }

  lemma {:induction false} ApplySplit(xs: seq<TableOp>, ys: seq<TableOp>, t: Table)
    ensures ApplyAll(xs + ys, t) ==
      match ApplyAll(xs, t) case Failed(e) => Failed(e) case Done(t') => ApplyAll(ys, t')
  {
    if xs == [] {
      assert xs + ys == ys;
    } else {
      assert (xs + ys)[1..] == xs[1..] + ys;
      if Apply(xs[0], t).Done? { ApplySplit(xs[1..], ys, Apply(xs[0], t).value); }
    }
  }

  // ---- schema without rows, and rows without schema ----

  function SchemaOf(t: Table): Table {
    t.(rows := [])
  }

  /** What an operation makes of the schema does not depend on the rows. */
  lemma SchemaStep(op: TableOp, t: Table, u: Table)
    requires SchemaOf(t) == SchemaOf(u) && Apply(op, t).Done? && Apply(op, u).Done?
    ensures SchemaOf(Apply(op, t).value) == SchemaOf(Apply(op, u).value)
  {}

  lemma {:induction false} SchemaRun(ops: seq<TableOp>, t: Table, u: Table)
    requires SchemaOf(t) == SchemaOf(u) && ApplyAll(ops, t).Done? && ApplyAll(ops, u).Done?
    ensures SchemaOf(ApplyAll(ops, t).value) == SchemaOf(ApplyAll(ops, u).value)
  {
    if ops != [] {
      SchemaStep(ops[0], t, u);
      SchemaRun(ops[1..], Apply(ops[0], t).value, Apply(ops[0], u).value);
    }
  }

  /** The column whose stored values the operation may change. */
  function Writes(op: TableOp): set<string> {
    if op.AddColumn? || op.DropColumn? || op.Update? then {op.column} else {}
  }

  /** Rows stay, in order, with their values in every column that is not written. */
  lemma StepKeepsCells(op: TableOp, t: Table, columns: set<string>)
    requires Apply(op, t).Done? && columns !! Writes(op)
    ensures Agree(t.rows, Apply(op, t).value.rows, columns)
  {}
}
