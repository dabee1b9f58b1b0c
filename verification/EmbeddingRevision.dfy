/** Revision 0a1b2c3d4e5f: a flag for memory nodes whose embedding is still to be made. */
module EmbeddingRevision {
  import opened Options
  import opened Schema
  import opened Changes
  import opened Databases
  import opened Revisions

  const PENDING := "embedding_pending"
  const PENDING_INDEX := "ix_memory_nodes_embedding_pending"

  /** When the flag is set to false. */
  const COMPLETE := And(NotNull("embedding"), EqualsText("embedding_status", "complete"))

  const CHANGE := Backfilled(PENDING, COMPLETE, PENDING_INDEX)

  const EMBEDDING: seq<Group> := [Alter(MemoryNodes, [CHANGE])]

  /** The database has what the backfill reads, and nothing in the way of the new flag. */
  predicate AsExpected(db: Db) {
    && MemoryNodes in db
    && var t := db[MemoryNodes];
      PENDING !in t.columns && PENDING_INDEX !in t.indexes && {"embedding", "embedding_status"} <= t.columns.Keys
  }

  lemma FlagIsNew()
    ensures PENDING !in Mentions(COMPLETE) && Mentions(COMPLETE) == {"embedding", "embedding_status"}
  {
    assert |PENDING| != |"embedding"| && |PENDING| != |"embedding_status"|;
  }

  lemma UpgradeSteps()
    ensures Upgrade(EMBEDDING) == OnAll(MemoryNodes, Up(CHANGE)) && Ups([CHANGE]) == Up(CHANGE)
  {
    assert EMBEDDING[1..] == [];
    Alone(CHANGE);
  }

  /** What an upgrade that ran came to. */
  lemma UpgradeRan(db: Db)
    requires ExecuteAll(Upgrade(EMBEDDING), db).Done?
    ensures MemoryNodes in db && ApplyAll(Up(CHANGE), db[MemoryNodes]).Done?
    ensures ExecuteAll(Upgrade(EMBEDDING), db) == Done(db[MemoryNodes := ApplyAll(Up(CHANGE), db[MemoryNodes]).value])
  {
    UpgradeSteps();
    assert Upgrade(EMBEDDING)[0] == On(MemoryNodes, Up(CHANGE)[0]);
    RanSmoothly(MemoryNodes, Up(CHANGE), db);
    OneTable(MemoryNodes, Up(CHANGE), db);
  }

  /** A row with its flag, as the backfill is meant to set it. */
  ghost predicate FlagRight(row: Row, row': Row) {
    && (forall c :: c != "embedding_pending" ==> Cell(row', c) == Cell(row, c))
    && Cell(row', "embedding_pending") == Bool(!(Cell(row, "embedding") != Null && Cell(row, "embedding_status") == Text("complete")))
  }

  lemma FlagSet(row: Row)
    ensures FlagRight(row, row[PENDING := Bool(!Holds(COMPLETE, row).True?)])
  {
    var l, r := COMPLETE.left, COMPLETE.right;
    assert Holds(l, row).True? <==> Cell(row, "embedding") != Null;
    assert Holds(r, row).True? <==> Cell(row, "embedding_status") == Text("complete");
  }

  /** After the upgrade the flag is false exactly on the rows with an embedding and status
      complete, also where the status is NULL and the condition is neither true nor false. */
  lemma PendingExactly(db: Db)
    requires ExecuteAll(Upgrade(EMBEDDING), db).Done?
    ensures MemoryNodes in db && MemoryNodes in ExecuteAll(Upgrade(EMBEDDING), db).value
    ensures var t, t' := db[MemoryNodes], ExecuteAll(Upgrade(EMBEDDING), db).value[MemoryNodes];
      && |t'.rows| == |t.rows| && (forall i :: 0 <= i < |t.rows| ==> FlagRight(t.rows[i], t'.rows[i]))
      && t'.columns == t.columns[PENDING := Column("BOOLEAN", false, None)]
  {
    UpgradeRan(db);
    FlagIsNew();
    BackfillUp(PENDING, COMPLETE, PENDING_INDEX, db[MemoryNodes]);
    var t := db[MemoryNodes];
    forall i | 0 <= i < |t.rows| ensures FlagRight(t.rows[i], Flagged(t.rows, PENDING, COMPLETE)[i]) {
      FlagSet(t.rows[i]);
    }
  }

  /** Only the table of memory nodes changes, and there only the flag and its index are new. */
  lemma EmbeddingUpgradeExactly(db: Db)
    requires ExecuteAll(Upgrade(EMBEDDING), db).Done?
    ensures MemoryNodes in db && MemoryNodes in ExecuteAll(Upgrade(EMBEDDING), db).value
    ensures var t, after := db[MemoryNodes], ExecuteAll(Upgrade(EMBEDDING), db).value;
      after == db[MemoryNodes := Table(
        t.columns["embedding_pending" := Column("BOOLEAN", false, None)],
        t.indexes["ix_memory_nodes_embedding_pending" := Index(["embedding_pending"], false, None)],
        t.constraints, after[MemoryNodes].rows)]
  {
    UpgradeRan(db);
    FlagIsNew();
    BackfillUp(PENDING, COMPLETE, PENDING_INDEX, db[MemoryNodes]);
  }

  lemma DowngradeSteps()
    ensures Downgrade(EMBEDDING) == OnAll(MemoryNodes, Down(CHANGE)) && Downs([CHANGE]) == Down(CHANGE)
  {
    assert EMBEDDING[1..] == [];
    Alone(CHANGE);
  }

  /** The downgrade takes the flag away, from the schema and from every row, and with it the
      index and whatever else has come to be over the flag. */
  lemma EmbeddingDowngradeExactly(db: Db)
    requires ExecuteAll(Downgrade(EMBEDDING), db).Done?
    ensures MemoryNodes in db && MemoryNodes in ExecuteAll(Downgrade(EMBEDDING), db).value
    ensures var t, t' := db[MemoryNodes], ExecuteAll(Downgrade(EMBEDDING), db).value[MemoryNodes];
      && ExecuteAll(Downgrade(EMBEDDING), db).value == db[MemoryNodes := t']
      && "embedding_pending" in t.columns && "ix_memory_nodes_embedding_pending" in t.indexes
      && t'.columns == t.columns - {"embedding_pending"}
      && t'.indexes == (map n | n in t.indexes && n != "ix_memory_nodes_embedding_pending"
                                && "embedding_pending" !in t.indexes[n].columns
                                && t.indexes[n].onlyNonNull != Some("embedding_pending") :: t.indexes[n])
      && t'.constraints == (map n | n in t.constraints && "embedding_pending" !in t.constraints[n].columns :: t.constraints[n])
      && t'.rows == seq(|t.rows|, i requires 0 <= i < |t.rows| => t.rows[i] - {"embedding_pending"})
  {
    DowngradeSteps();
    assert Downgrade(EMBEDDING)[0] == On(MemoryNodes, Down(CHANGE)[0]);
    RanSmoothly(MemoryNodes, Down(CHANGE), db);
    OneTable(MemoryNodes, Down(CHANGE), db);
    BackfillDown(PENDING, COMPLETE, PENDING_INDEX, db[MemoryNodes]);
    DropsWith(db[MemoryNodes], PENDING_INDEX, PENDING);
  }

  /** The upgrade runs exactly on the databases it expects, whatever their rows. */
  lemma EmbeddingRunsExactly(db: Db)
    requires Sound(db)
    ensures ExecuteAll(Upgrade(EMBEDDING), db).Done? <==> AsExpected(db)
  {
    FlagIsNew();
    if ExecuteAll(Upgrade(EMBEDDING), db).Done? {
      UpgradeRan(db);
      BackfillUp(PENDING, COMPLETE, PENDING_INDEX, db[MemoryNodes]);
    }
    if AsExpected(db) {
      BackfillRuns(db[MemoryNodes]);
      UpgradeSteps();
      UpSmooth(CHANGE, MemoryNodes, db);
      OneTable(MemoryNodes, Up(CHANGE), db);
    }
  }

  lemma BackfillRuns(t: Table)
    requires WellFormed(t) && PENDING !in t.columns && PENDING_INDEX !in t.indexes && Mentions(COMPLETE) <= t.columns.Keys
    ensures ApplyAll(Up(CHANGE), t).Done?
  {
    var ops := Up(CHANGE);
    ApplyFour(ops[0], ops[1], ops[2], ops[3], t);
    var t1 := Apply(ops[0], t).value;
    ApplyThree(ops[1], ops[2], ops[3], t1);
    FlagFills(t, t1);
    FlagIndexed(Apply(ops[1], t1).value);
  }

  /** The backfill breaks no rule: none looks at the new column, and every row gets a flag. */
  lemma FlagFills(t: Table, t1: Table)
    requires WellFormed(t) && PENDING !in t.columns && Mentions(COMPLETE) <= t.columns.Keys
    requires Apply(AddColumn(PENDING, FLAG_AT_FIRST), t) == Done(t1)
    ensures Apply(Update(PENDING, COMPLETE, Bool(false), Bool(true)), t1) ==
      Done(t1.(rows := Flagged(t.rows, PENDING, COMPLETE)))
  {
    AddKeepsWellFormed(t, PENDING, FLAG_AT_FIRST, t1);
    FlagIsNew();
    FlagsComputed(PENDING, COMPLETE, t.rows);
    var rows := Flagged(t.rows, PENDING, COMPLETE);
    OtherRulesKept(t, rows, PENDING);
    assert RulesHold(t1.(rows := rows));
  }

  lemma FlagIndexed(t: Table)
    requires PENDING in t.columns && PENDING_INDEX !in t.indexes
    ensures ApplyAll([CreateIndex(PENDING_INDEX, PlainIndex([PENDING])), AlterDefault(PENDING, None)], t).Done?
  {
    ApplyTwo(CreateIndex(PENDING_INDEX, PlainIndex([PENDING])), AlterDefault(PENDING, None), t);
    assert IndexColumns(PlainIndex([PENDING])) == {PENDING};
  }

  /** The downgrade gives back the very database the upgrade found. */
  lemma EmbeddingUndone(db: Db)
    requires Sound(db) && ExecuteAll(Upgrade(EMBEDDING), db).Done?
    ensures RevisionPre(EMBEDDING, db)
    ensures ExecuteAll(Downgrade(EMBEDDING), ExecuteAll(Upgrade(EMBEDDING), db).value) == Done(db)
  {
    EmbeddingRunsExactly(db);
    FlagIsNew();
    assert EMBEDDING[1..] == [] && [CHANGE][1..] == [];
    assert PreAll([CHANGE], db[MemoryNodes]);
    RevisionUndone(EMBEDDING, db);
  }
}
