/** The drift-sync revision 045921eda2ca as changes, table by table, and what follows for
    every database. */
module DriftRevision {
  import opened Options
  import opened Schema
  import opened Changes
  import opened Databases
  import opened Revisions
  import opened Independence
  import opened Replay
  import opened ReplayCheck
  import opened Reversal
  import opened ReplayDamage

  function Added(name: string, columns: seq<string>): Change {
    AddedIndex(name, PlainIndex(columns))
  }

  function Removed(name: string, columns: seq<string>): Change {
    RemovedIndex(name, PlainIndex(columns))
  }

  const AUTOMATION_LOGS := [
    Removed("ix_automation_logs_source", ["source"]),
    Removed("ix_automation_logs_status", ["status"])
  ]

  const LEASES := [MergedUnique("background_task_leases_name_key", "ix_background_task_leases_name", "name")]

  const FLOW_RUNS := [
    Removed("ix_flow_runs_status", ["status"]),
    Removed("ix_flow_runs_waiting_for", ["waiting_for"])
  ]

  const MEMORY_NODES := [
    Added("ix_memory_nodes_user_id", ["user_id"]),
    Added("ix_memory_nodes_visibility", ["visibility"])
  ]

  const PLAYBOOKS := [Relax("steps"), Relax("success_rate")]

  const REQUEST_METRICS := [
    Removed("ix_request_metrics_path_created_at", ["path", "created_at"]),
    Added("ix_request_metrics_id", ["id"])
  ]

  const SCORE_SNAPSHOTS := [
    Relax("drop_point_id"), Relax("timestamp"), Relax("narrative_score"), Relax("velocity_score"),
    Relax("spread_score"), Added("ix_score_snapshots_id", ["id"])
  ]

  const OWNER_KEY := ForeignKey(["user_id"], Users, ["id"], "SET NULL")

  const STRATEGIES := [
    Relax("intent_type"), Relax("flow"),
    Retype("updated_at", "TIMESTAMP WITH TIME ZONE", "TIMESTAMP WITHOUT TIME ZONE"),
    Relax("name"), Relax("success_rate"),
    RemovedConstraint("fk_strategies_user_id_users", OWNER_KEY)
  ]

  const USER_SCORES := [
    Relax("master_score"), Relax("execution_speed_score"), Relax("decision_efficiency_score"),
    Relax("ai_productivity_boost_score"), Relax("focus_quality_score"), Relax("masterplan_progress_score"),
    Relax("score_version"), Relax("data_points_used")
  ]

  /** In the order of the upgrade; the downgrade goes through them backwards. */
  const FIRST: seq<Group> := [
    Alter(AgentEvents, [Enforce("user_id")]),
    Alter(AgentRuns, [Added("ix_agent_runs_agent_type", ["agent_type"])]),
    Alter(Agents, [Added("ix_agents_owner_user_id", ["owner_user_id"])]),
    Alter(AutomationLogs, AUTOMATION_LOGS),
    Alter(BackgroundTaskLeases, LEASES),
    Alter(ExecutionUnits, [RenamedIndex("ix_eu_tenant_id", "ix_execution_units_tenant_id")]),
    Alter(FlowRuns, FLOW_RUNS)
  ]

  const SECOND: seq<Group> := [
    Alter(LoopAdjustments, [Enforce("user_id")]),
    Alter(MemoryMetrics, [Enforce("user_id")]),
    Alter(MemoryNodes, MEMORY_NODES),
    Alter(MemoryTraces, [Enforce("user_id")]),
    Alter(NodusScheduledJobs, [Removed("ix_nodus_scheduled_jobs_user_active", ["user_id", "is_active"])]),
    Alter(NodusTraceEvents, [Removed("ix_nodus_trace_events_trace_id_sequence", ["trace_id", "sequence"])]),
    Alter(Playbooks, PLAYBOOKS)
  ]

  const THIRD: seq<Group> := [
    Alter(RequestMetrics, REQUEST_METRICS),
    Alter(ScoreHistory, [Removed("ix_score_history_user_calculated", ["user_id", "calculated_at"])]),
    Alter(ScoreSnapshots, SCORE_SNAPSHOTS),
    Alter(Strategies, STRATEGIES),
    Alter(SystemEvents, [Added("ix_system_events_agent_id_timestamp", ["agent_id", "timestamp"])]),
    Alter(Tasks, [Relax("dependency_type")]),
    Alter(UserScores, USER_SCORES)
  ]

  const DRIFT: seq<Group> := FIRST + SECOND + THIRD

  lemma IndexChangesSeparate()
    ensures Separate(AUTOMATION_LOGS) && Separate(FLOW_RUNS) && Separate(MEMORY_NODES) && Separate(REQUEST_METRICS)
  {}

  lemma ColumnChangesSeparate()
    ensures Separate(PLAYBOOKS) && Separate(SCORE_SNAPSHOTS)
  {}

  lemma StrategyChangesSeparate()
    ensures Separate(STRATEGIES)
  {}

  /** Tells the columns of the scores apart by length and first letter. */
  function Code(c: Change): int
    requires c.Relax? && c.column != []
  {
    256 * |c.column| + c.column[0] as int
  }

  lemma ScoreCodes()
    ensures |USER_SCORES| == 8 && forall i :: 0 <= i < 8 ==> USER_SCORES[i].Relax? && USER_SCORES[i].column != []
    ensures forall i, j :: 0 <= i < j < 8 ==> Code(USER_SCORES[i]) != Code(USER_SCORES[j])
  {
    var lengths := [12, 21, 25, 27, 19, 25, 13, 16];
    var letters := "medafmsd";
    assert forall i :: 0 <= i < 8 ==> Code(USER_SCORES[i]) == 256 * lengths[i] + letters[i] as int;
  }

  lemma ScoreChangesSeparate()
    ensures Separate(USER_SCORES)
  {
    ScoreCodes();
    forall i, j | 0 <= i < j < |USER_SCORES| ensures Slots(USER_SCORES[i]) !! Slots(USER_SCORES[j]) {
      assert Code(USER_SCORES[i]) != Code(USER_SCORES[j]);
    }
  }

  function Position(table: TableName): nat {
    match table
    case AgentEvents => 0
    case AgentRuns => 1
    case Agents => 2
    case AutomationLogs => 3
    case BackgroundTaskLeases => 4
    case ExecutionUnits => 5
    case FlowRuns => 6
    case LoopAdjustments => 7
    case MemoryMetrics => 8
    case MemoryNodes => 9
    case MemoryTraces => 10
    case NodusScheduledJobs => 11
    case NodusTraceEvents => 12
    case Playbooks => 13
    case RequestMetrics => 14
    case ScoreHistory => 15
    case ScoreSnapshots => 16
    case Strategies => 17
    case SystemEvents => 18
    case Tasks => 19
    case UserScores => 20
    case _ => 21
  }

  // ---- what holds of every group ----

  /** The tables whose `user_id` the revision makes NOT NULL. */
  const OWNED := {AgentEvents, LoopAdjustments, MemoryMetrics, MemoryTraces}

  ghost predicate GuardsOwnerOnly(g: Group) {
    forall j :: 0 <= j < |g.changes| ==>
      if g.table in OWNED then g.changes[j] == Enforce("user_id") else !g.changes[j].Enforce?
  }

  /** What the change removes makes no demand on rows when it comes back, but for the foreign
      key from strategies to their owners. */
  predicate Undemanding(c: Change, table: TableName) {
    (c.RemovedIndex? ==> !c.index.unique) && (c.RemovedConstraint? ==> table == Strategies && c.constraint == OWNER_KEY)
  }

  /** A guard exactly for a missing owner, and one demand at most. */
  ghost predicate Harmless(g: Group) {
    && g.changes != [] && GuardsOwnerOnly(g)
    && (forall j :: 0 <= j < |g.changes| ==> Undemanding(g.changes[j], g.table))
  }

  /** The group harmlessly alters the table at position `i` by separate changes. */
  ghost predicate Sane(g: Group, i: nat) {
    g.Alter? && Position(g.table) == i && Separate(g.changes) && Harmless(g)
  }

  ghost predicate SaneFrom(groups: seq<Group>, i: nat) {
    forall k :: 0 <= k < |groups| ==> Sane(groups[k], i + k)
  }

  lemma FirstNamed()
    ensures |FIRST| == 7 && forall k :: 0 <= k < 7 ==> FIRST[k].Alter? && Position(FIRST[k].table) == 0 + k
  {}

  lemma FirstHarmless()
    ensures forall k :: 0 <= k < |FIRST| ==> Harmless(FIRST[k])
  {}

  lemma FirstSeparate()
    ensures forall k :: 0 <= k < |FIRST| ==> Separate(FIRST[k].changes)
  {
    IndexChangesSeparate();
  }

  lemma SecondNamed()
    ensures |SECOND| == 7 && forall k :: 0 <= k < 7 ==> SECOND[k].Alter? && Position(SECOND[k].table) == 7 + k
  {}

  lemma SecondHarmless()
    ensures forall k :: 0 <= k < |SECOND| ==> Harmless(SECOND[k])
  {}

  lemma SecondSeparate()
    ensures forall k :: 0 <= k < |SECOND| ==> Separate(SECOND[k].changes)
  {
    IndexChangesSeparate();
    ColumnChangesSeparate();
  }

  lemma ThirdNamed()
    ensures |THIRD| == 7 && forall k :: 0 <= k < 7 ==> THIRD[k].Alter? && Position(THIRD[k].table) == 14 + k
  {}

  lemma ThirdHarmless()
    ensures forall k :: 0 <= k < |THIRD| ==> Harmless(THIRD[k])
  {}

  lemma ThirdSeparate()
    ensures forall k :: 0 <= k < |THIRD| ==> Separate(THIRD[k].changes)
  {
    IndexChangesSeparate();
    ColumnChangesSeparate();
    StrategyChangesSeparate();
    ScoreChangesSeparate();
  }

  lemma SaneJoin(xs: seq<Group>, ys: seq<Group>, i: nat)
    requires SaneFrom(xs, i) && SaneFrom(ys, i + |xs|)
    ensures SaneFrom(xs + ys, i)
  {
    var zs := xs + ys;
    forall k | 0 <= k < |zs| ensures Sane(zs[k], i + k) {
      if k >= |xs| { assert zs[k] == ys[k - |xs|] && Sane(ys[k - |xs|], i + |xs| + (k - |xs|)); }
    }
  }

  lemma DriftSane()
    ensures |DRIFT| == 21 && SaneFrom(DRIFT, 0)
  {
    FirstNamed();
    FirstHarmless();
    FirstSeparate();
    SecondNamed();
    SecondHarmless();
    SecondSeparate();
    ThirdNamed();
    ThirdHarmless();
    ThirdSeparate();
    SaneJoin(FIRST, SECOND, 0);
    SaneJoin(FIRST + SECOND, THIRD, 0);
  }

  // ---- the consequences, for any such groups ----

  /** The database is as the groups expect it. */
  ghost predicate Meets(groups: seq<Group>, db: Db) {
    forall i :: 0 <= i < |groups| ==> groups[i].table in db && Ready(groups[i].changes, db[groups[i].table])
  }

  ghost predicate Has(groups: seq<Group>, db: Db) {
    forall i :: 0 <= i < |groups| ==> groups[i].table in db
  }

  lemma SaneDistinct(groups: seq<Group>)
    requires SaneFrom(groups, 0)
    ensures DistinctTables(groups) && AllTidy(groups)
  {
    forall i, j | 0 <= i < j < |groups| ensures groups[i].table != groups[j].table {
      assert Sane(groups[i], i) && Sane(groups[j], j);
    }
    forall i | 0 <= i < |groups| ensures Plain(groups[i]) { assert Sane(groups[i], i); }
    PlainTidy(groups);
  }

  lemma SaneReady(groups: seq<Group>, db: Db)
    requires SaneFrom(groups, 0) && Meets(groups, db)
    ensures AllReady(groups, db)
  {
    forall i | 0 <= i < |groups| ensures GroupReady(groups[i], db) { assert Sane(groups[i], i); }
  }

  lemma SaneAlters(groups: seq<Group>, db: Db)
    requires SaneFrom(groups, 0) && Has(groups, db)
    ensures Alterations(groups, db.Keys)
  {
    SaneDistinct(groups);
    forall i | 0 <= i < |groups| ensures groups[i].Alter? && groups[i].table in db.Keys && Separate(groups[i].changes) {
      assert Sane(groups[i], i);
    }
  }

  ghost predicate NoOwnerMissing(db: Db) {
    forall table :: table in OWNED ==> table in db && NoNulls(db[table].rows, "user_id")
  }

  /** Positions tell tables apart. */
  lemma SameTable(table: TableName, other: TableName)
    requires Position(table) == Position(other) < 21
    ensures table == other
  {}

  lemma OwnerAt(groups: seq<Group>, table: TableName) returns (i: nat)
    requires |groups| == 21 && SaneFrom(groups, 0) && table in OWNED
    ensures i < 21 && groups[i].table == table && groups[i].changes != [] && groups[i].changes[0] == Enforce("user_id")
  {
    i := Position(table);
    assert Sane(groups[i], i);
    SameTable(groups[i].table, table);
  }

  lemma GuardsAreOwners(groups: seq<Group>, db: Db)
    requires |groups| == 21 && SaneFrom(groups, 0) && AllReady(groups, db)
    ensures AllGuarded(groups, db) <==> NoOwnerMissing(db)
  {
    if AllGuarded(groups, db) {
      forall table | table in OWNED ensures table in db && NoNulls(db[table].rows, "user_id") {
        var i := OwnerAt(groups, table);
        assert GroupReady(groups[i], db) && Guarded(groups[i].changes, db[table]);
      }
    }
    if NoOwnerMissing(db) {
      forall i | 0 <= i < |groups| ensures GroupReady(groups[i], db) && Guarded(groups[i].changes, db[groups[i].table]) {
        assert Sane(groups[i], i);
      }
    }
  }

  // ---- the revision ----

  /** The database is as the revision expects it: columns to be tightened are nullable and
      the other way round, what is dropped is there as the downgrade will create it again,
      what is created is not there. */
  ghost predicate AsExpected(db: Db) {
    Meets(DRIFT, db)
  }

  lemma ExpectedIsReady(db: Db)
    requires AsExpected(db)
    ensures |DRIFT| == 21 && SaneFrom(DRIFT, 0) && DistinctTables(DRIFT) && AllReady(DRIFT, db)
  {
    DriftSane();
    SaneDistinct(DRIFT);
    SaneReady(DRIFT, db);
  }

  /** The downgrade gives back the very database the upgrade found. */
  lemma DriftUndone(db: Db)
    requires Sound(db) && AsExpected(db) && ExecuteAll(Upgrade(DRIFT), db).Done?
    ensures ExecuteAll(Downgrade(DRIFT), ExecuteAll(Upgrade(DRIFT), db).value) == Done(db)
  {
    ExpectedIsReady(db);
    ReadyIsPre(DRIFT, db);
    PreFromStart(DRIFT, db);
    RevisionUndone(DRIFT, db);
  }

  /** ... and only then: wherever the upgrade runs, the downgrade gives back that very
      database exactly when every change found its table as expected. */
  lemma DriftUndoneExactly(db: Db)
    requires Sound(db) && Has(DRIFT, db) && ExecuteAll(Upgrade(DRIFT), db).Done?
    ensures Alterations(DRIFT, db.Keys)
    ensures ExecuteAll(Downgrade(DRIFT), ExecuteAll(Upgrade(DRIFT), db).value) == Done(db) <==> AllAsExpected(DRIFT, db)
  {
    DriftSane();
    SaneAlters(DRIFT, db);
    RevisionUndoneExactly(DRIFT, db);
  }

  /** When the revision is the newest and a replay of it runs through, the verdict is good
      exactly when the tables at head are as expected as far as the snapshot looks, and the
      schema is restored exactly when they are as expected. */
  lemma DriftReplayedExactly(scripts: Scripts, line: seq<string>, db: Db)
    requires Linear(scripts, line) && 1 < |line| && Makes(scripts[line[0]], DRIFT)
    ensures var end := EndOf(scripts, line, 1, db);
      !end.verdict.DowngradeFailed? && !end.verdict.UpgradeFailed? ==>
        && (end.verdict == Replayed <==> AllSeenAtHead(DRIFT, db))
        && (SameSchema(end.tables, db) <==> AllMet(DRIFT, db))
  {
    DriftSane();
    SaneDistinct(DRIFT);
    NewestReplayedExactly(scripts, line, DRIFT, db);
  }

  /** The upgrade keeps every row of every table, and all of the tables it does not name. */
  lemma DriftKeepsRows(db: Db)
    requires AsExpected(db) && ExecuteAll(Upgrade(DRIFT), db).Done?
    ensures var after := ExecuteAll(Upgrade(DRIFT), db).value;
      && after.Keys == db.Keys
      && (forall table :: table in db ==> after[table].rows == db[table].rows)
      && (forall table :: table in db && (forall i :: 0 <= i < |DRIFT| ==> DRIFT[i].table != table) ==> after[table] == db[table])
  {
    ExpectedIsReady(db);
    ReadyKeepsRows(DRIFT, db);
  }

  lemma ReadyKeepsRows(groups: seq<Group>, db: Db)
    requires AllReady(groups, db) && ExecuteAll(Upgrade(groups), db).Done?
    ensures var after := ExecuteAll(Upgrade(groups), db).value;
      && after.Keys == db.Keys
      && (forall table :: table in db ==> after[table].rows == db[table].rows)
      && (forall table :: table in db && (forall i :: 0 <= i < |groups| ==> groups[i].table != table) ==> after[table] == db[table])
  {
    forall i | 0 <= i < |groups| ensures groups[i].Alter? && groups[i].table in db && AddNoColumn(groups[i].changes) {
      assert GroupReady(groups[i], db);
    }
    UpgradeKeepsRows(groups, db);
  }

  /** On an expected database the upgrade runs exactly when no guarded user_id is NULL, and
      it is stopped by a guard, never by the database. */
  lemma DriftRunsExactly(db: Db)
    requires Sound(db) && AsExpected(db)
    ensures ExecuteAll(Upgrade(DRIFT), db).Done? <==> NoOwnerMissing(db)
    ensures ExecuteAll(Upgrade(DRIFT), db).Failed? ==> ExecuteAll(Upgrade(DRIFT), db).error.NullsFound?
  {
    ExpectedIsReady(db);
    UpgradeRunsExactly(DRIFT, db);
    GuardsAreOwners(DRIFT, db);
  }

  /** So the revision can be replayed over any database that has the schema its upgrade
      left: going down and up again gives that schema back. */
  lemma DriftRedone(before: Db, db: Db, down: Option<string>)
    requires Sound(before) && AsExpected(before) && ExecuteAll(Upgrade(DRIFT), before).Done?
    requires SameSchema(db, ExecuteAll(Upgrade(DRIFT), before).value)
    ensures Redone(Script(down, Upgrade(DRIFT), Downgrade(DRIFT)), db)
  {
    DriftUndone(before);
    UndoneIsRedone(Script(down, Upgrade(DRIFT), Downgrade(DRIFT)), before, db);
  }

  /** No column whose NOT NULL an upgrade dropped holds a NULL. */
  ghost predicate NoRelaxedNull(groups: seq<Group>, db: Db) {
    forall i, j :: 0 <= i < |groups| && 0 <= j < |groups[i].changes| && groups[i].changes[j].Relax? ==>
      groups[i].table in db && NoNulls(db[groups[i].table].rows, groups[i].changes[j].column)
  }

  /** Every strategy is without owner or owned by a user that exists. */
  ghost predicate OwnersExist(db: Db) {
    && Strategies in db && Users in db
    && forall i :: 0 <= i < |db[Strategies].rows| ==> OwnerExists(db[Strategies].rows[i], db[Users].rows)
  }

  ghost predicate OwnerExists(row: Row, users: seq<Row>) {
    Cell(row, "user_id").Null? || exists j :: 0 <= j < |users| && Cell(users[j], "id") == Cell(row, "user_id")
  }

  lemma OwnerReferred(row: Row, users: seq<Row>)
    ensures Refers(row, OWNER_KEY, users) <==> OwnerExists(row, users)
  {
    var column, id := OWNER_KEY.columns[0], OWNER_KEY.refColumns[0];
    if j :| 0 <= j < |users| && Cell(users[j], id) == Cell(row, column) {
      assert Matches(row, OWNER_KEY.columns, users[j], OWNER_KEY.refColumns);
    }
    if !OwnerExists(row, users) {
      forall j | 0 <= j < |users| ensures !Matches(row, OWNER_KEY.columns, users[j], OWNER_KEY.refColumns) {
        assert Cell(users[j], id) != Cell(row, column);
      }
    }
  }

  lemma OwnersReferred(db: Db)
    requires Strategies in db && Resolves(OWNER_KEY, db)
    ensures Honoured(OWNER_KEY, db[Strategies].rows, db) <==> OwnersExist(db)
  {
    forall i | 0 <= i < |db[Strategies].rows|
      ensures Refers(db[Strategies].rows[i], OWNER_KEY, db[Users].rows) <==> OwnerExists(db[Strategies].rows[i], db[Users].rows)
    {
      OwnerReferred(db[Strategies].rows[i], db[Users].rows);
    }
  }

  lemma OwnerKeyAt()
    ensures |DRIFT| == 21 && DRIFT[17].table == Strategies && |DRIFT[17].changes| == 6
    ensures DRIFT[17].changes[5].RemovedConstraint? && DRIFT[17].changes[5].constraint == OWNER_KEY
    ensures DRIFT[17].changes[5].name == "fk_strategies_user_id_users"
  {
    FirstNamed();
    SecondNamed();
    ThirdNamed();
    assert DRIFT[17] == THIRD[3];
  }

  /** What the rows must bear: no NULL in a relaxed column, and the foreign key. */
  lemma BearingIs(groups: seq<Group>, i: nat, db: Db)
    requires SaneFrom(groups, 0) && Has(groups, db) && i < |groups|
    ensures AllBearable(groups[i].changes, groups[i].table, db) <==>
      forall j :: 0 <= j < |groups[i].changes| ==>
        && (groups[i].changes[j].Relax? ==> NoNulls(db[groups[i].table].rows, groups[i].changes[j].column))
        && (groups[i].changes[j].RemovedConstraint? ==> Honoured(OWNER_KEY, db[groups[i].table].rows, db))
  {
    assert Sane(groups[i], i);
    forall j | 0 <= j < |groups[i].changes|
      ensures Bearable(groups[i].changes[j], groups[i].table, db) <==>
        && (groups[i].changes[j].Relax? ==> NoNulls(db[groups[i].table].rows, groups[i].changes[j].column))
        && (groups[i].changes[j].RemovedConstraint? ==> Honoured(OWNER_KEY, db[groups[i].table].rows, db))
    {
      assert Undemanding(groups[i].changes[j], groups[i].table);
    }
  }

  lemma DriftBears(db: Db)
    requires Has(DRIFT, db) && Strategies in db
    ensures RowsBear(DRIFT, db) <==> NoRelaxedNull(DRIFT, db) && Honoured(OWNER_KEY, db[Strategies].rows, db)
  {
    DriftSane();
    OwnerKeyAt();
    forall i: nat | i < |DRIFT| { BearingIs(DRIFT, i, db); }
    if RowsBear(DRIFT, db) {
      assert AllBearable(DRIFT[17].changes, Strategies, db);
      forall i, j | 0 <= i < |DRIFT| && 0 <= j < |DRIFT[i].changes| && DRIFT[i].changes[j].Relax?
        ensures NoNulls(db[DRIFT[i].table].rows, DRIFT[i].changes[j].column)
      {
        assert AllBearable(DRIFT[i].changes, DRIFT[i].table, db);
      }
    }
    if NoRelaxedNull(DRIFT, db) && Honoured(OWNER_KEY, db[Strategies].rows, db) {
      forall i: nat | i < |DRIFT| ensures AllBearable(DRIFT[i].changes, DRIFT[i].table, db) {
        assert Sane(DRIFT[i], i) && forall j :: 0 <= j < |DRIFT[i].changes| ==> Undemanding(DRIFT[i].changes[j], DRIFT[i].table);
      }
    }
  }

  lemma OwnerKeyHeld(db: Db)
    requires KeysHonoured(db) && AsExpected(db)
    ensures Strategies in db && Resolves(OWNER_KEY, db)
  {
    OwnerKeyAt();
    var name := "fk_strategies_user_id_users";
    assert Ready(DRIFT[17].changes, db[Strategies]) && Pre(DRIFT[17].changes[5], db[Strategies]);
    assert Honoured(db[Strategies].constraints[name], db[Strategies].rows, db);
  }

  lemma SaneIsNotUsers(g: Group, i: nat)
    requires Sane(g, i) && i < 21
    ensures g.table != Users
  {}

  lemma NoneIsUsers(groups: seq<Group>)
    requires SaneFrom(groups, 0) && |groups| == 21
    ensures forall i :: 0 <= i < |groups| ==> groups[i].table != Users
  {
    forall i | 0 <= i < |groups| ensures groups[i].table != Users {
      assert Sane(groups[i], 0 + i);
      SaneIsNotUsers(groups[i], i);
    }
  }

  lemma OtherTableKept(groups: seq<Group>, db: Db, table: TableName)
    requires AllReady(groups, db) && ExecuteAll(Upgrade(groups), db).Done?
    requires table in db && forall i :: 0 <= i < |groups| ==> groups[i].table != table
    ensures var after := ExecuteAll(Upgrade(groups), db).value;
      after.Keys == db.Keys && after[table] == db[table]
  {
    ReadyKeepsRows(groups, db);
  }

  lemma AllThere(groups: seq<Group>, db: Db, a: Db, b: Db)
    requires AllReady(groups, db) && a.Keys == db.Keys && SameSchema(b, a)
    ensures Has(groups, b)
  {
    forall i | 0 <= i < |groups| ensures groups[i].table in b { assert GroupReady(groups[i], db); }
  }

  /** The users the foreign key refers to are there after the upgrade as before. */
  lemma OwnersThere(before: Db, db: Db)
    requires Sound(before) && AsExpected(before) && ExecuteAll(Upgrade(DRIFT), before).Done?
    requires SameSchema(db, ExecuteAll(Upgrade(DRIFT), before).value)
    ensures Has(DRIFT, db) && Strategies in db && Resolves(OWNER_KEY, db)
  {
    OwnerKeyHeld(before);
    ExpectedIsReady(before);
    NoneIsUsers(DRIFT);
    OtherTableKept(DRIFT, before, Users);
    AllThere(DRIFT, before, ExecuteAll(Upgrade(DRIFT), before).value, db);
    assert SchemaOf(db[Users]) == SchemaOf(before[Users]);
  }

  /** Whatever was written since the upgrade, the downgrade runs exactly when none of the
      relaxed columns holds a NULL and no strategy belongs to a user that is gone; no guard
      stands in front of these statements, so otherwise it is the database that rejects one. */
  lemma DriftDowngradesExactly(before: Db, db: Db)
    requires Sound(before) && AsExpected(before) && ExecuteAll(Upgrade(DRIFT), before).Done?
    requires Sound(db) && SameSchema(db, ExecuteAll(Upgrade(DRIFT), before).value)
    ensures ExecuteAll(Downgrade(DRIFT), db).Done? <==> NoRelaxedNull(DRIFT, db) && OwnersExist(db)
    ensures ExecuteAll(Downgrade(DRIFT), db).Failed? ==> ExecuteAll(Downgrade(DRIFT), db).error == Rejected
  {
    ExpectedIsReady(before);
    UpgradeGivesReversible(DRIFT, before);
    SameSchemaReversible(DRIFT, ExecuteAll(Upgrade(DRIFT), before).value, db);
    DowngradeRunsExactly(DRIFT, db);
    OwnersThere(before, db);
    DriftBears(db);
    OwnersReferred(db);
  }
}
