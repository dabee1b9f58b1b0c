/** What a replay of revisions 0a1b2c3d4e5f and 1b2c3d4e5f6a does to the rows. */
module AppReplayRows {
  import opened Schema
  import opened Changes
  import opened Databases
  import opened Revisions
  import opened Independence
  import opened Replay
  import opened ReplayCheck
  import opened AppReplay
  import E = EmbeddingRevision
  import I = IdempotencyRevision

  function ChangeWrites(c: Change): set<string> {
    if c.AddedColumn? || c.Backfilled? then {c.column} else {}
  }

  /** The group neither creates the table nor writes one of the columns in it. */
  ghost predicate GroupLeaves(g: Group, table: TableName, columns: set<string>) {
    g.table == table ==> g.Alter? && forall i :: 0 <= i < |g.changes| ==> columns !! ChangeWrites(g.changes[i])
  }

  ghost predicate AllLeave(ops: seq<Op>, table: TableName, columns: set<string>) {
    forall i :: 0 <= i < |ops| ==> Leaves(ops[i], table, columns)
  }

  ghost predicate AvoidWrites(ops: seq<TableOp>, columns: set<string>) {
    forall i :: 0 <= i < |ops| ==> columns !! Writes(ops[i])
  }

  lemma {:induction false} ChangesAvoid(changes: seq<Change>, columns: set<string>)
    requires forall i :: 0 <= i < |changes| ==> columns !! ChangeWrites(changes[i])
    ensures AvoidWrites(Ups(changes), columns) && AvoidWrites(Downs(changes), columns)
  {
    if changes != [] { ChangesAvoid(changes[1..], columns); }
  }

  lemma AllLeaveBoth(ops: seq<Op>, xs: seq<Op>, ys: seq<Op>, table: TableName, columns: set<string>)
    requires ops == xs + ys && AllLeave(xs, table, columns) && AllLeave(ys, table, columns)
    ensures AllLeave(ops, table, columns)
  {}

  lemma OnAllLeaves(g: Group, ops: seq<TableOp>, table: TableName, columns: set<string>)
    requires g.table == table ==> AvoidWrites(ops, columns)
    ensures AllLeave(OnAll(g.table, ops), table, columns)
  {}

  lemma GroupOpsLeave(g: Group, table: TableName, columns: set<string>)
    requires GroupLeaves(g, table, columns)
    ensures AllLeave(GroupUp(g), table, columns) && AllLeave(GroupDown(g), table, columns)
  {
    if g.table == table { ChangesAvoid(g.changes, columns); }
    OnAllLeaves(g, Ups(g.changes), table, columns);
    OnAllLeaves(g, Downs(g.changes), table, columns);
  }

  lemma {:induction false} GroupsLeave(groups: seq<Group>, table: TableName, columns: set<string>)
    requires forall i :: 0 <= i < |groups| ==> GroupLeaves(groups[i], table, columns)
    ensures AllLeave(Upgrade(groups), table, columns) && AllLeave(Downgrade(groups), table, columns)
  {
    if groups != [] {
      var g, rest := groups[0], groups[1..];
      GroupOpsLeave(g, table, columns);
      GroupsLeave(rest, table, columns);
      AllLeaveBoth(Upgrade(groups), GroupUp(g), Upgrade(rest), table, columns);
      AllLeaveBoth(Downgrade(groups), Downgrade(rest), GroupDown(g), table, columns);
    }
  }

  /** The tables the replay drops and creates again. */
  const RECREATED := {FreelancePaymentRecords, FreelanceRefundRecords, FreelanceWebhookEvents}

  /** The columns of the table whose values the newer revision does not touch. */
  ghost predicate NoKey(table: TableName, columns: set<string>) {
    table !in RECREATED && (table == FreelanceOrders ==> I.KEY !in columns)
  }

  /** ... and those that a replay by `steps` does not. */
  ghost predicate Untouched(table: TableName, columns: set<string>, steps: int) {
    NoKey(table, columns) && (table == MemoryNodes && steps == 2 ==> E.PENDING !in columns)
  }

  lemma EmbeddingLeaves(table: TableName, columns: set<string>)
    requires table == MemoryNodes ==> E.PENDING !in columns
    ensures AllLeave(Upgrade(E.EMBEDDING), table, columns) && AllLeave(Downgrade(E.EMBEDDING), table, columns)
  {
    GroupsLeave(E.EMBEDDING, table, columns);
  }

  lemma IdempotencyLeaves(table: TableName, columns: set<string>)
    requires NoKey(table, columns)
    ensures AllLeave(Upgrade(I.IDEMPOTENCY), table, columns) && AllLeave(Downgrade(I.IDEMPOTENCY), table, columns)
  {
    GroupsLeave(I.IDEMPOTENCY, table, columns);
  }

  /** Every other table keeps its rows, and memory nodes and orders keep theirs in all
      columns but the flag, if that revision is walked, and the key. */
  lemma PairKeepsRows(scripts: Scripts, line: seq<string>, steps: int, db: Db, table: TableName, columns: set<string>)
    requires PairAtHead(scripts, line) && 1 <= steps <= 2
    requires table in db && Untouched(table, columns, steps)
    ensures var end := EndOf(scripts, line, steps, db);
      table in end.tables && Agree(db[table].rows, end.tables[table].rows, columns)
  {
    IdempotencyLeaves(table, columns);
    if steps == 2 { EmbeddingLeaves(table, columns); }
    WalkedOps(scripts, line, steps, table, columns);
    ReplayKeepsRows(scripts, line, steps, db, table, columns);
  }

  lemma WalkedOps(scripts: Scripts, line: seq<string>, steps: int, table: TableName, columns: set<string>)
    requires Linear(scripts, line) && 2 < |line| && 1 <= steps <= 2
    requires forall i :: 0 <= i < steps ==>
      AllLeave(scripts[line[i]].upgrade, table, columns) && AllLeave(scripts[line[i]].downgrade, table, columns)
    ensures var chain := line[..Walked(line, steps)];
      AllLeave(DownOps(scripts, chain), table, columns) && AllLeave(UpOps(scripts, chain), table, columns)
  {
    var newer, older := line[0], line[1];
    if steps == 1 {
      OneOps(scripts, newer);
      assert line[..1] == [newer];
    } else {
      TwoUp(scripts, newer, older);
      TwoDown(scripts, newer, older);
      assert line[..2] == [newer, older];
    }
  }

  lemma TwoDown(scripts: Scripts, newer: string, older: string)
    requires newer in scripts && older in scripts
    ensures DownOps(scripts, [newer, older]) == scripts[newer].downgrade + scripts[older].downgrade
  {
    assert [newer, older][1..] == [older];
    OneOps(scripts, older);
  }

  // ---- tables that come back empty ----

  /** The tables of the groups are there, without rows, and the other tables as before. */
  ghost predicate CreatedFresh(groups: seq<Group>, db: Db, after: Db) {
    && (forall i :: 0 <= i < |groups| ==> groups[i].table in after && after[groups[i].table].rows == [])
    && (forall table :: table in db && (forall i :: 0 <= i < |groups| ==> groups[i].table != table) ==>
          table in after && after[table] == db[table])
  }

  lemma FirstFresh(groups: seq<Group>, db: Db, t: Table, after: Db)
    requires groups != [] && DistinctTables(groups) && t.rows == [] && groups[0].table !in db
    requires CreatedFresh(groups[1..], db[groups[0].table := t], after)
    ensures CreatedFresh(groups, db, after)
  {
    DistinctTail(groups);
    forall i | 0 <= i < |groups| ensures groups[i].table in after && after[groups[i].table].rows == [] {
      if i > 0 { assert groups[i] == groups[1..][i - 1]; }
    }
  }

  lemma {:induction false} CreatedEmpty(groups: seq<Group>, db: Db)
    requires DistinctTables(groups) && ExecuteAll(Upgrade(groups), db).Done?
    requires forall i :: 0 <= i < |groups| ==> Creatable(groups[i])
    ensures CreatedFresh(groups, db, ExecuteAll(Upgrade(groups), db).value)
  {
    if groups != [] {
      var g, rest := groups[0], groups[1..];
      ExecuteSplit(GroupUp(g), Upgrade(rest), db);
      GroupUpRan(g, db);
      ChangesKeepRows(g.changes, Fresh(g));
      DistinctTail(groups);
      var t := ApplyAll(Ups(g.changes), Fresh(g)).value;
      CreatedEmpty(rest, db[g.table := t]);
      FirstFresh(groups, db, t, ExecuteAll(Upgrade(groups), db).value);
    }
  }

  lemma CreatedAt(table: TableName) returns (i: nat)
    requires table in RECREATED
    ensures i < |I.CREATES| && I.CREATES[i].table == table
  {
    I.CreatesTables();
    i := if table == FreelancePaymentRecords then 0 else if table == FreelanceRefundRecords then 1 else 2;
  }

  lemma IdempotencyCreatesEmpty(db: Db)
    requires ExecuteAll(Upgrade(I.IDEMPOTENCY), db).Done?
    ensures var after := ExecuteAll(Upgrade(I.IDEMPOTENCY), db).value;
      forall table :: table in RECREATED ==> table in after && after[table].rows == []
  {
    assert I.IDEMPOTENCY[1..] == I.CREATES;
    ExecuteSplit(GroupUp(I.ORDERS), Upgrade(I.CREATES), db);
    I.AllCreatable();
    CreatedEmpty(I.CREATES, ExecuteAll(GroupUp(I.ORDERS), db).value);
    forall table | table in RECREATED
      ensures table in ExecuteAll(Upgrade(I.IDEMPOTENCY), db).value
      ensures ExecuteAll(Upgrade(I.IDEMPOTENCY), db).value[table].rows == []
    {
      var i := CreatedAt(table);
      assert I.CREATES[i].table == table;
    }
  }

  /** A replay that ends well has emptied the three tables: an intact schema says nothing
      about the rows of tables that were created again. */
  lemma PairEmptiesTables(scripts: Scripts, line: seq<string>, steps: int, db: Db)
    requires PairAtHead(scripts, line) && 1 <= steps <= 2 && EndOf(scripts, line, steps, db).verdict.Replayed?
    ensures var end := EndOf(scripts, line, steps, db);
      forall table :: table in RECREATED ==> table in end.tables && end.tables[table].rows == []
  {
    var before := EndsWithIdempotency(scripts, line, steps, db);
    IdempotencyCreatesEmpty(before);
  }

  lemma LastUp(scripts: Scripts, chain: seq<string>, db: Db)
    requires chain != [] && forall i :: 0 <= i < |chain| ==> chain[i] in scripts
    requires ExecuteAll(UpOps(scripts, chain), db).Done?
    ensures ExecuteAll(UpOps(scripts, chain[1..]), db).Done?
    ensures ExecuteAll(UpOps(scripts, chain), db) ==
      ExecuteAll(scripts[chain[0]].upgrade, ExecuteAll(UpOps(scripts, chain[1..]), db).value)
  {
    ExecuteSplit(UpOps(scripts, chain[1..]), scripts[chain[0]].upgrade, db);
  }

  // ---- columns that come back as new ----

  lemma OrdersCleared(t: Table)
    requires ApplyAll(Ups(I.ORDERS.changes), t).Done?
    ensures forall i :: 0 <= i < |ApplyAll(Ups(I.ORDERS.changes), t).value.rows| ==>
      Cell(ApplyAll(Ups(I.ORDERS.changes), t).value.rows[i], I.KEY) == Null
  {
    I.OrderSteps();
    ApplyTwo(AddColumn(I.KEY, I.ORDER_KEY), CreateIndex(I.ORDER_INDEX, I.KEYED), t);
  }

  ghost predicate NoKeys(rows: seq<Row>) {
    forall i :: 0 <= i < |rows| ==> Cell(rows[i], I.KEY) == Null
  }

  lemma CreatesKeepKeys(db: Db)
    requires FreelanceOrders in db && ExecuteAll(Upgrade(I.CREATES), db).Done?
    ensures var after := ExecuteAll(Upgrade(I.CREATES), db).value;
      FreelanceOrders in after && Agree(db[FreelanceOrders].rows, after[FreelanceOrders].rows, {I.KEY})
  {
    GroupsLeave(I.CREATES, FreelanceOrders, {I.KEY});
    RowsKept(Upgrade(I.CREATES), db, FreelanceOrders, {I.KEY});
  }

  lemma IdempotencyClearsKeys(db: Db)
    requires ExecuteAll(Upgrade(I.IDEMPOTENCY), db).Done?
    ensures FreelanceOrders in ExecuteAll(Upgrade(I.IDEMPOTENCY), db).value
    ensures NoKeys(ExecuteAll(Upgrade(I.IDEMPOTENCY), db).value[FreelanceOrders].rows)
  {
    I.IdempotencyRunsExactly(db);
    assert I.IDEMPOTENCY[1..] == I.CREATES;
    ExecuteSplit(GroupUp(I.ORDERS), Upgrade(I.CREATES), db);
    AlterRuns(I.ORDERS, db);
    OrdersCleared(db[FreelanceOrders]);
    CreatesKeepKeys(ExecuteAll(GroupUp(I.ORDERS), db).value);
  }

  /** The last thing a replay of the pair does is the newer upgrade. */
  lemma EndsWithIdempotency(scripts: Scripts, line: seq<string>, steps: int, db: Db) returns (before: Db)
    requires PairAtHead(scripts, line) && 1 <= steps <= 2 && EndOf(scripts, line, steps, db).verdict.Replayed?
    ensures ExecuteAll(Upgrade(I.IDEMPOTENCY), before) == Done(EndOf(scripts, line, steps, db).tables)
  {
    var chain := line[..Walked(line, steps)];
    var mid := ExecuteAll(DownOps(scripts, chain), db).value;
    LastUp(scripts, chain, mid);
    before := ExecuteAll(UpOps(scripts, chain[1..]), mid).value;
  }

  /** After a replay no order has an idempotency key, whatever keys there were. */
  lemma PairClearsKeys(scripts: Scripts, line: seq<string>, steps: int, db: Db)
    requires PairAtHead(scripts, line) && 1 <= steps <= 2 && EndOf(scripts, line, steps, db).verdict.Replayed?
    ensures var end := EndOf(scripts, line, steps, db);
      FreelanceOrders in end.tables && NoKeys(end.tables[FreelanceOrders].rows)
  {
    var before := EndsWithIdempotency(scripts, line, steps, db);
    IdempotencyClearsKeys(before);
  }

  /** The flag says what the backfill computes from the row's own embedding and status. */
  predicate FlagComputed(row: Row) {
    Cell(row, E.PENDING) ==
      Bool(!(Cell(row, "embedding") != Null && Cell(row, "embedding_status") == Text("complete")))
  }

  ghost predicate FlagsComputed(rows: seq<Row>) {
    forall i :: 0 <= i < |rows| ==> FlagComputed(rows[i])
  }

  const WATCHED := {E.PENDING, "embedding", "embedding_status"}

  lemma EmbeddingComputesFlags(db: Db)
    requires ExecuteAll(Upgrade(E.EMBEDDING), db).Done?
    ensures var after := ExecuteAll(Upgrade(E.EMBEDDING), db).value;
      MemoryNodes in after && FlagsComputed(after[MemoryNodes].rows)
  {
    E.PendingExactly(db);
    var t, t' := db[MemoryNodes], ExecuteAll(Upgrade(E.EMBEDDING), db).value[MemoryNodes];
    assert E.PENDING != "embedding" && E.PENDING != "embedding_status" by { E.FlagIsNew(); }
    forall i | 0 <= i < |t'.rows| ensures FlagComputed(t'.rows[i]) { assert E.FlagRight(t.rows[i], t'.rows[i]); }
  }

  lemma FlagsCarry(rows: seq<Row>, rows': seq<Row>)
    requires Agree(rows, rows', WATCHED)
    ensures FlagsComputed(rows) <==> FlagsComputed(rows')
  {
    forall i | 0 <= i < |rows| ensures FlagComputed(rows[i]) <==> FlagComputed(rows'[i]) {
      assert forall c :: c in WATCHED ==> Cell(rows[i], c) == Cell(rows'[i], c);
    }
  }

  /** After a replay of both revisions every memory node has the flag that the backfill
      computes, whatever was written to it before. */
  lemma PairComputesFlags(scripts: Scripts, line: seq<string>, db: Db)
    requires PairAtHead(scripts, line) && EndOf(scripts, line, 2, db).verdict.Replayed?
    ensures var end := EndOf(scripts, line, 2, db);
      MemoryNodes in end.tables && FlagsComputed(end.tables[MemoryNodes].rows)
  {
    var mid := ExecuteAll(DownOps(scripts, line[..2]), db).value;
    assert line[..2] == [line[0], line[1]];
    TwoUp(scripts, line[0], line[1]);
    ExecuteSplit(scripts[line[1]].upgrade, scripts[line[0]].upgrade, mid);
    var between := ExecuteAll(scripts[line[1]].upgrade, mid).value;
    EmbeddingComputesFlags(mid);
    IdempotencyKeepsFlags(between);
  }

  lemma IdempotencyKeepsFlags(db: Db)
    requires MemoryNodes in db && FlagsComputed(db[MemoryNodes].rows) && ExecuteAll(Upgrade(I.IDEMPOTENCY), db).Done?
    ensures var after := ExecuteAll(Upgrade(I.IDEMPOTENCY), db).value;
      MemoryNodes in after && FlagsComputed(after[MemoryNodes].rows)
  {
    IdempotencyLeaves(MemoryNodes, WATCHED);
    RowsKept(Upgrade(I.IDEMPOTENCY), db, MemoryNodes, WATCHED);
    FlagsCarry(db[MemoryNodes].rows, ExecuteAll(Upgrade(I.IDEMPOTENCY), db).value[MemoryNodes].rows);
  }

  // ---- when nothing is lost ----

  ghost predicate SameCells(rows: seq<Row>, rows': seq<Row>) {
    |rows| == |rows'| && forall i, c :: 0 <= i < |rows| ==> Cell(rows[i], c) == Cell(rows'[i], c)
  }

  /** Every table keeps every row, with all its cells. */
  ghost predicate KeepsAll(db: Db, after: Db) {
    forall table :: table in db ==> table in after && SameCells(db[table].rows, after[table].rows)
  }

  /** What the replay makes anew is already as it will make it. */
  ghost predicate NothingToLose(db: Db, steps: int) {
    && (forall table :: table in RECREATED && table in db ==> db[table].rows == [])
    && (FreelanceOrders in db ==> NoKeys(db[FreelanceOrders].rows))
    && (steps == 2 && MemoryNodes in db ==> FlagsComputed(db[MemoryNodes].rows))
  }

  /** The tables and columns as the replay makes them. */
  ghost predicate AsMade(after: Db, steps: int) {
    && (forall table :: table in RECREATED ==> table in after && after[table].rows == [])
    && FreelanceOrders in after && NoKeys(after[FreelanceOrders].rows)
    && (steps == 2 ==> MemoryNodes in after && FlagsComputed(after[MemoryNodes].rows))
  }

  /** What the replay does not touch is kept. */
  ghost predicate KeepsUntouched(db: Db, after: Db, steps: int) {
    forall table, columns :: table in db && Untouched(table, columns, steps) ==>
      table in after && Agree(db[table].rows, after[table].rows, columns)
  }

  /** A replay of the pair that ends well keeps all rows exactly when the created tables are
      empty, no order has a key and, if both are walked, all flags are as computed. */
  lemma PairKeepsAllExactly(scripts: Scripts, line: seq<string>, steps: int, db: Db)
    requires PairAtHead(scripts, line) && 1 <= steps <= 2 && EndOf(scripts, line, steps, db).verdict.Replayed?
    ensures KeepsAll(db, EndOf(scripts, line, steps, db).tables) <==> NothingToLose(db, steps)
  {
    PairEmptiesTables(scripts, line, steps, db);
    PairClearsKeys(scripts, line, steps, db);
    if steps == 2 { PairComputesFlags(scripts, line, db); }
    var after := EndOf(scripts, line, steps, db).tables;
    forall table, columns | table in db && Untouched(table, columns, steps)
      ensures table in after && Agree(db[table].rows, after[table].rows, columns)
    {
      PairKeepsRows(scripts, line, steps, db, table, columns);
    }
    NothingLostExactly(db, after, steps);
  }

  lemma NothingLostExactly(db: Db, after: Db, steps: int)
    requires AsMade(after, steps) && KeepsUntouched(db, after, steps)
    ensures KeepsAll(db, after) <==> NothingToLose(db, steps)
  {
    if KeepsAll(db, after) && MemoryNodes in db && steps == 2 {
      FlagsCarry(db[MemoryNodes].rows, after[MemoryNodes].rows);
    }
    if NothingToLose(db, steps) {
      forall table | table in db ensures table in after && SameCells(db[table].rows, after[table].rows) {
        if table !in RECREATED { TableKept(db, after, steps, table); }
      }
    }
  }

  /** Outside the created tables a cell is kept unless it is the key or the flag. */
  lemma TableKept(db: Db, after: Db, steps: int, table: TableName)
    requires AsMade(after, steps) && KeepsUntouched(db, after, steps)
    requires table in db && table !in RECREATED && NothingToLose(db, steps)
    ensures table in after && SameCells(db[table].rows, after[table].rows)
  {
    assert Untouched(table, {}, steps);
    forall i, c | 0 <= i < |db[table].rows| ensures Cell(db[table].rows[i], c) == Cell(after[table].rows[i], c) {
      if Untouched(table, {c}, steps) {
        assert c in {c};
      } else if table == MemoryNodes {
        SourcesUntouched();
        SourcesKept(db[MemoryNodes].rows, after[MemoryNodes].rows);
      }
    }
  }

  lemma FlagDecided(row: Row, row': Row)
    requires FlagComputed(row) && FlagComputed(row')
    requires Cell(row, "embedding") == Cell(row', "embedding")
    requires Cell(row, "embedding_status") == Cell(row', "embedding_status")
    ensures Cell(row, E.PENDING) == Cell(row', E.PENDING)
  {}

  const SOURCES := {"embedding", "embedding_status"}

  lemma SourcesKept(rows: seq<Row>, rows': seq<Row>)
    requires Agree(rows, rows', SOURCES) && FlagsComputed(rows) && FlagsComputed(rows')
    ensures forall i :: 0 <= i < |rows| ==> Cell(rows[i], E.PENDING) == Cell(rows'[i], E.PENDING)
  {
    forall i | 0 <= i < |rows| ensures Cell(rows[i], E.PENDING) == Cell(rows'[i], E.PENDING) {
      assert FlagComputed(rows[i]) && FlagComputed(rows'[i]);
      assert "embedding" in SOURCES && "embedding_status" in SOURCES;
      FlagDecided(rows[i], rows'[i]);
    }
  }

  lemma SourcesUntouched()
    ensures Untouched(MemoryNodes, SOURCES, 2)
  {
    E.FlagIsNew();
  }
}
