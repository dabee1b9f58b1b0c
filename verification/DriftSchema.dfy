/** What the drift-sync revision 045921eda2ca makes of every table and what its downgrade
    does, spelled out name by name. */
module DriftSchema {
  import opened Options
  import opened Schema
  import opened Changes
  import opened Databases
  import opened Revisions
  import opened ReplayDamage
  import opened DriftRevision

  // ---- the tables, by name ----

  /** The table with NULL allowed in the columns, or not. */
  function Nulls(t: Table, columns: seq<string>, allowed: bool): Table {
    t.(columns := map c | c in t.columns ::
      if c in columns then Column(t.columns[c].typ, allowed, t.columns[c].default) else t.columns[c])
  }

  function Typed(t: Table, column: string, typ: string): Table {
    if column !in t.columns then t
    else t.(columns := t.columns[column := Column(typ, t.columns[column].nullable, t.columns[column].default)])
  }

  /** The table with an index that is not unique and covers all rows. */
  function Indexed(t: Table, name: string, columns: seq<string>): Table {
    t.(indexes := t.indexes[name := Index(columns, false, None)])
  }

  function NotIndexed(t: Table, names: set<string>): Table {
    t.(indexes := t.indexes - names)
  }

  function Moved(t: Table, name: string, newName: string): Table {
    if name !in t.indexes then t else t.(indexes := (t.indexes - {name})[newName := t.indexes[name]])
  }

  /** What the upgrade makes of the table. */
  function Synced(table: TableName, t: Table): Table {
    match table
    case AgentEvents => Nulls(t, ["user_id"], false)
    case AgentRuns => Indexed(t, "ix_agent_runs_agent_type", ["agent_type"])
    case Agents => Indexed(t, "ix_agents_owner_user_id", ["owner_user_id"])
    case AutomationLogs => NotIndexed(t, {"ix_automation_logs_source", "ix_automation_logs_status"})
    case BackgroundTaskLeases =>
      t.(indexes := t.indexes["ix_background_task_leases_name" := Index(["name"], true, None)],
         constraints := t.constraints - {"background_task_leases_name_key"})
    case ExecutionUnits => Moved(t, "ix_eu_tenant_id", "ix_execution_units_tenant_id")
    case FlowRuns => NotIndexed(t, {"ix_flow_runs_status", "ix_flow_runs_waiting_for"})
    case LoopAdjustments => Nulls(t, ["user_id"], false)
    case MemoryMetrics => Nulls(t, ["user_id"], false)
    case MemoryNodes =>
      Indexed(Indexed(t, "ix_memory_nodes_user_id", ["user_id"]), "ix_memory_nodes_visibility", ["visibility"])
    case MemoryTraces => Nulls(t, ["user_id"], false)
    case NodusScheduledJobs => NotIndexed(t, {"ix_nodus_scheduled_jobs_user_active"})
    case NodusTraceEvents => NotIndexed(t, {"ix_nodus_trace_events_trace_id_sequence"})
    case Playbooks => Nulls(t, ["steps", "success_rate"], true)
    case RequestMetrics => Indexed(NotIndexed(t, {"ix_request_metrics_path_created_at"}), "ix_request_metrics_id", ["id"])
    case ScoreHistory => NotIndexed(t, {"ix_score_history_user_calculated"})
    case ScoreSnapshots =>
      Indexed(Nulls(t, ["drop_point_id", "timestamp", "narrative_score", "velocity_score", "spread_score"], true),
              "ix_score_snapshots_id", ["id"])
    case Strategies =>
      Typed(Nulls(t, ["intent_type", "flow", "name", "success_rate"], true), "updated_at", "TIMESTAMP WITHOUT TIME ZONE")
      .(constraints := t.constraints - {"fk_strategies_user_id_users"})
    case SystemEvents => Indexed(t, "ix_system_events_agent_id_timestamp", ["agent_id", "timestamp"])
    case Tasks => Nulls(t, ["dependency_type"], true)
    case UserScores =>
      Nulls(t, ["master_score", "execution_speed_score", "decision_efficiency_score", "ai_productivity_boost_score",
                "focus_quality_score", "masterplan_progress_score", "score_version", "data_points_used"], true)
    case _ => t
  }

  /** What the downgrade makes of the table. */
  function Unsynced(table: TableName, t: Table): Table {
    match table
    case AgentEvents => Nulls(t, ["user_id"], true)
    case AgentRuns => NotIndexed(t, {"ix_agent_runs_agent_type"})
    case Agents => NotIndexed(t, {"ix_agents_owner_user_id"})
    case AutomationLogs =>
      Indexed(Indexed(t, "ix_automation_logs_status", ["status"]), "ix_automation_logs_source", ["source"])
    case BackgroundTaskLeases =>
      Indexed(t, "ix_background_task_leases_name", ["name"])
      .(constraints := t.constraints["background_task_leases_name_key" := Unique(["name"])])
    case ExecutionUnits => Moved(t, "ix_execution_units_tenant_id", "ix_eu_tenant_id")
    case FlowRuns =>
      Indexed(Indexed(t, "ix_flow_runs_waiting_for", ["waiting_for"]), "ix_flow_runs_status", ["status"])
    case LoopAdjustments => Nulls(t, ["user_id"], true)
    case MemoryMetrics => Nulls(t, ["user_id"], true)
    case MemoryNodes => NotIndexed(t, {"ix_memory_nodes_visibility", "ix_memory_nodes_user_id"})
    case MemoryTraces => Nulls(t, ["user_id"], true)
    case NodusScheduledJobs => Indexed(t, "ix_nodus_scheduled_jobs_user_active", ["user_id", "is_active"])
    case NodusTraceEvents => Indexed(t, "ix_nodus_trace_events_trace_id_sequence", ["trace_id", "sequence"])
    case Playbooks => Nulls(t, ["steps", "success_rate"], false)
    case RequestMetrics =>
      Indexed(NotIndexed(t, {"ix_request_metrics_id"}), "ix_request_metrics_path_created_at", ["path", "created_at"])
    case ScoreHistory => Indexed(t, "ix_score_history_user_calculated", ["user_id", "calculated_at"])
    case ScoreSnapshots =>
      NotIndexed(Nulls(t, ["drop_point_id", "timestamp", "narrative_score", "velocity_score", "spread_score"], false),
                 {"ix_score_snapshots_id"})
    case Strategies =>
      Typed(Nulls(t, ["intent_type", "flow", "name", "success_rate"], false), "updated_at", "TIMESTAMP WITH TIME ZONE")
      .(constraints := t.constraints["fk_strategies_user_id_users" := ForeignKey(["user_id"], Users, ["id"], "SET NULL")])
    case SystemEvents => NotIndexed(t, {"ix_system_events_agent_id_timestamp"})
    case Tasks => Nulls(t, ["dependency_type"], false)
    case UserScores =>
      Nulls(t, ["master_score", "execution_speed_score", "decision_efficiency_score", "ai_productivity_boost_score",
                "focus_quality_score", "masterplan_progress_score", "score_version", "data_points_used"], false)
    case _ => t
  }

  // ---- columns ----

  function Relaxed(columns: seq<string>): seq<Change> {
    seq(|columns|, i requires 0 <= i < |columns| => Relax(columns[i]))
  }

  lemma NullsJoin(t: Table, column: string, rest: seq<string>, allowed: bool)
    ensures Nulls(SetNullable(t, column, allowed), rest, allowed) == Nulls(t, [column] + rest, allowed)
    ensures SetNullable(Nulls(t, rest, allowed), column, allowed) == Nulls(t, [column] + rest, allowed)
  {
    assert Nulls(SetNullable(t, column, allowed), rest, allowed).columns == Nulls(t, [column] + rest, allowed).columns;
    assert SetNullable(Nulls(t, rest, allowed), column, allowed).columns == Nulls(t, [column] + rest, allowed).columns;
  }

  lemma NullsNone(t: Table, allowed: bool)
    ensures Nulls(t, [], allowed) == t
  {
    assert Nulls(t, [], allowed).columns == t.columns;
  }

  lemma NullsOne(t: Table, column: string, allowed: bool)
    ensures SetNullable(t, column, allowed) == Nulls(t, [column], allowed)
  {
    NullsJoin(t, column, [], allowed);
    NullsNone(t, allowed);
    assert [column] + [] == [column];
  }

  lemma {:induction false} RelaxedNulls(columns: seq<string>, up: bool, t: Table)
    ensures TurnedAll(Relaxed(columns), up, t) == Nulls(t, columns, up)
    decreases |columns|
  {
    if columns == [] {
      NullsNone(t, up);
    } else {
      var column, rest := columns[0], columns[1..];
      assert columns == [column] + rest && Relaxed(columns)[1..] == Relaxed(rest);
      RelaxedNulls(rest, up, t);
      RelaxedNulls(rest, up, SetNullable(t, column, up));
      NullsJoin(t, column, rest, up);
    }
  }

  lemma TypedIs(t: Table, column: string, typ: string)
    ensures SetType(t, column, typ) == Typed(t, column, typ)
  {}

  /** Types and nullability do not get in each other's way. */
  lemma TypedBetween(t: Table, xs: seq<string>, ys: seq<string>, column: string, typ: string, allowed: bool)
    ensures Nulls(Typed(Nulls(t, xs, allowed), column, typ), ys, allowed) == Typed(Nulls(t, xs + ys, allowed), column, typ)
  {
    assert Nulls(Typed(Nulls(t, xs, allowed), column, typ), ys, allowed).columns
        == Typed(Nulls(t, xs + ys, allowed), column, typ).columns;
  }

  lemma NullsSwap(t: Table, xs: seq<string>, ys: seq<string>, allowed: bool)
    ensures Nulls(t, xs + ys, allowed) == Nulls(t, ys + xs, allowed)
  {
    assert Nulls(t, xs + ys, allowed).columns == Nulls(t, ys + xs, allowed).columns;
  }

  // ---- table by table ----

  /** The changes come to what is spelled out for the table. */
  ghost predicate SpelledOut(g: Group) {
    forall t :: TurnedAll(g.changes, true, t) == Synced(g.table, t) && TurnedAll(g.changes, false, t) == Unsynced(g.table, t)
  }

  lemma OwnersSpelledOut(g: Group)
    requires g.table in OWNED && g.changes == [Enforce("user_id")]
    ensures SpelledOut(g)
  {
    forall t ensures TurnedAll(g.changes, true, t) == Synced(g.table, t) && TurnedAll(g.changes, false, t) == Unsynced(g.table, t) {
      TurnedOne(g.changes[0], true, t);
      TurnedOne(g.changes[0], false, t);
      NullsOne(t, "user_id", false);
      NullsOne(t, "user_id", true);
    }
  }

  lemma OneSpelledOut(g: Group, c: Change)
    requires g.changes == [c]
    requires forall t :: Turned(c, true, t) == Synced(g.table, t) && Turned(c, false, t) == Unsynced(g.table, t)
    ensures SpelledOut(g)
  {
    forall t ensures TurnedAll(g.changes, true, t) == Synced(g.table, t) && TurnedAll(g.changes, false, t) == Unsynced(g.table, t) {
      TurnedOne(c, true, t);
      TurnedOne(c, false, t);
    }
  }

  lemma TwoSpelledOut(g: Group, c: Change, d: Change)
    requires g.changes == [c, d]
    requires forall t :: Turned(d, true, Turned(c, true, t)) == Synced(g.table, t)
    requires forall t :: Turned(c, false, Turned(d, false, t)) == Unsynced(g.table, t)
    ensures SpelledOut(g)
  {
    forall t ensures TurnedAll(g.changes, true, t) == Synced(g.table, t) && TurnedAll(g.changes, false, t) == Unsynced(g.table, t) {
      TurnedTwo(c, d, true, t);
      TurnedTwo(c, d, false, t);
    }
  }

  lemma DroppedTwice(t: Table, name: string, other: string)
    ensures (t.indexes - {name}) - {other} == t.indexes - {name, other}
    ensures (t.indexes - {other}) - {name} == t.indexes - {name, other}
  {}

  lemma FirstSpelledOut()
    ensures forall k :: 0 <= k < |FIRST| ==> SpelledOut(FIRST[k])
  {
    OwnersSpelledOut(FIRST[0]);
    OneSpelledOut(FIRST[1], FIRST[1].changes[0]);
    OneSpelledOut(FIRST[2], FIRST[2].changes[0]);
    LogsSpelledOut(FIRST[3]);
    OneSpelledOut(FIRST[4], FIRST[4].changes[0]);
    OneSpelledOut(FIRST[5], FIRST[5].changes[0]);
    RunsSpelledOut(FIRST[6]);
  }

  lemma LogsSpelledOut(g: Group)
    requires g == Alter(AutomationLogs, AUTOMATION_LOGS)
    ensures SpelledOut(g)
  {
    var c, d := AUTOMATION_LOGS[0], AUTOMATION_LOGS[1];
    forall t ensures Turned(d, true, Turned(c, true, t)) == Synced(g.table, t) {
      DroppedTwice(t, "ix_automation_logs_source", "ix_automation_logs_status");
    }
    TwoSpelledOut(g, c, d);
  }

  lemma RunsSpelledOut(g: Group)
    requires g == Alter(FlowRuns, FLOW_RUNS)
    ensures SpelledOut(g)
  {
    var c, d := FLOW_RUNS[0], FLOW_RUNS[1];
    forall t ensures Turned(d, true, Turned(c, true, t)) == Synced(g.table, t) {
      DroppedTwice(t, "ix_flow_runs_status", "ix_flow_runs_waiting_for");
    }
    TwoSpelledOut(g, c, d);
  }

  lemma SecondSpelledOut()
    ensures forall k :: 0 <= k < |SECOND| ==> SpelledOut(SECOND[k])
  {
    OwnersSpelledOut(SECOND[0]);
    OwnersSpelledOut(SECOND[1]);
    NodesSpelledOut(SECOND[2]);
    OwnersSpelledOut(SECOND[3]);
    JobsSpelledOut(SECOND[4]);
    TracesSpelledOut(SECOND[5]);
    PlaybooksSpelledOut(SECOND[6]);
  }

  lemma JobsSpelledOut(g: Group)
    requires g == Alter(NodusScheduledJobs, [Removed("ix_nodus_scheduled_jobs_user_active", ["user_id", "is_active"])])
    ensures SpelledOut(g)
  {
    OneSpelledOut(g, g.changes[0]);
  }

  lemma TracesSpelledOut(g: Group)
    requires g == Alter(NodusTraceEvents, [Removed("ix_nodus_trace_events_trace_id_sequence", ["trace_id", "sequence"])])
    ensures SpelledOut(g)
  {
    OneSpelledOut(g, g.changes[0]);
  }

  lemma PlaybooksSpelledOut(g: Group)
    requires g == Alter(Playbooks, PLAYBOOKS)
    ensures SpelledOut(g)
  {
    RelaxedSpelledOut(g, ["steps", "success_rate"]);
  }

  lemma NodesSpelledOut(g: Group)
    requires g == Alter(MemoryNodes, MEMORY_NODES)
    ensures SpelledOut(g)
  {
    var c, d := MEMORY_NODES[0], MEMORY_NODES[1];
    forall t ensures Turned(c, false, Turned(d, false, t)) == Unsynced(g.table, t) {
      DroppedTwice(t, "ix_memory_nodes_visibility", "ix_memory_nodes_user_id");
    }
    TwoSpelledOut(g, c, d);
  }

  lemma RelaxedSpelledOut(g: Group, columns: seq<string>)
    requires g.changes == Relaxed(columns)
    requires forall t :: Nulls(t, columns, true) == Synced(g.table, t) && Nulls(t, columns, false) == Unsynced(g.table, t)
    ensures SpelledOut(g)
  {
    forall t ensures TurnedAll(g.changes, true, t) == Synced(g.table, t) && TurnedAll(g.changes, false, t) == Unsynced(g.table, t) {
      RelaxedNulls(columns, true, t);
      RelaxedNulls(columns, false, t);
    }
  }

  lemma ThirdSpelledOut()
    ensures forall k :: 0 <= k < |THIRD| ==> SpelledOut(THIRD[k])
  {
    RequestsSpelledOut(THIRD[0]);
    HistorySpelledOut(THIRD[1]);
    SnapshotsSpelledOut(THIRD[2]);
    StrategiesSpelledOut(THIRD[3]);
    EventsSpelledOut(THIRD[4]);
    RelaxedSpelledOut(THIRD[5], ["dependency_type"]);
    ScoresSpelledOut(THIRD[6]);
  }

  lemma HistorySpelledOut(g: Group)
    requires g == Alter(ScoreHistory, [Removed("ix_score_history_user_calculated", ["user_id", "calculated_at"])])
    ensures SpelledOut(g)
  {
    OneSpelledOut(g, g.changes[0]);
  }

  lemma EventsSpelledOut(g: Group)
    requires g == Alter(SystemEvents, [Added("ix_system_events_agent_id_timestamp", ["agent_id", "timestamp"])])
    ensures SpelledOut(g)
  {
    OneSpelledOut(g, g.changes[0]);
  }

  lemma ScoresSpelledOut(g: Group)
    requires g == Alter(UserScores, USER_SCORES)
    ensures SpelledOut(g)
  {
    RelaxedSpelledOut(g,
      ["master_score", "execution_speed_score", "decision_efficiency_score", "ai_productivity_boost_score",
       "focus_quality_score", "masterplan_progress_score", "score_version", "data_points_used"]);
  }

  lemma RequestsSpelledOut(g: Group)
    requires g == Alter(RequestMetrics, REQUEST_METRICS)
    ensures SpelledOut(g)
  {
    var c, d := REQUEST_METRICS[0], REQUEST_METRICS[1];
    forall t ensures Turned(d, true, Turned(c, true, t)) == Synced(g.table, t) {}
    forall t ensures Turned(c, false, Turned(d, false, t)) == Unsynced(g.table, t) {}
    TwoSpelledOut(g, c, d);
  }

  lemma RelaxedThenLast(columns: seq<string>, last: Change, up: bool, t: Table)
    ensures TurnedAll(Relaxed(columns) + [last], up, t) ==
      if up then Turned(last, up, Nulls(t, columns, up)) else Nulls(Turned(last, up, t), columns, up)
  {
    TurnedJoin(Relaxed(columns), [last], up, t);
    RelaxedNulls(columns, up, if up then t else Turned(last, up, t));
    TurnedOne(last, up, if up then Nulls(t, columns, up) else t);
  }

  lemma SnapshotsAre()
    ensures SCORE_SNAPSHOTS ==
      Relaxed(["drop_point_id", "timestamp", "narrative_score", "velocity_score", "spread_score"]) + [Added("ix_score_snapshots_id", ["id"])]
  {}

  lemma SnapshotsSpelledOut(g: Group)
    requires g == Alter(ScoreSnapshots, SCORE_SNAPSHOTS)
    ensures SpelledOut(g)
  {
    SnapshotsAre();
    var columns := ["drop_point_id", "timestamp", "narrative_score", "velocity_score", "spread_score"];
    var last := Added("ix_score_snapshots_id", ["id"]);
    forall t ensures TurnedAll(g.changes, true, t) == Synced(g.table, t) && TurnedAll(g.changes, false, t) == Unsynced(g.table, t) {
      RelaxedThenLast(columns, last, true, t);
      RelaxedThenLast(columns, last, false, t);
    }
  }

  /** Some columns relaxed, one retyped, more relaxed, and a constraint removed. */
  function Mixed(xs: seq<string>, retype: Change, ys: seq<string>, key: Change): seq<Change> {
    Relaxed(xs) + ([retype] + (Relaxed(ys) + [key]))
  }

  lemma MixedUp(xs: seq<string>, retype: Change, ys: seq<string>, key: Change, t: Table)
    requires retype.Retype?
    ensures TurnedAll(Mixed(xs, retype, ys, key), true, t)
         == Turned(key, true, Typed(Nulls(t, xs + ys, true), retype.column, retype.to))
  {
    var t1 := Nulls(t, xs, true);
    TurnedJoin(Relaxed(xs), [retype] + (Relaxed(ys) + [key]), true, t);
    RelaxedNulls(xs, true, t);
    TurnedFirst(retype, Relaxed(ys) + [key], true, t1);
    TypedIs(t1, retype.column, retype.to);
    RelaxedThenLast(ys, key, true, Typed(t1, retype.column, retype.to));
    TypedBetween(t, xs, ys, retype.column, retype.to, true);
  }

  lemma MixedDown(xs: seq<string>, retype: Change, ys: seq<string>, key: Change, t: Table)
    requires retype.Retype?
    ensures TurnedAll(Mixed(xs, retype, ys, key), false, t)
         == Typed(Nulls(Turned(key, false, t), xs + ys, false), retype.column, retype.from)
  {
    var t1 := Turned(key, false, t);
    TurnedJoin(Relaxed(xs), [retype] + (Relaxed(ys) + [key]), false, t);
    TurnedFirst(retype, Relaxed(ys) + [key], false, t);
    RelaxedThenLast(ys, key, false, t);
    var t2 := Nulls(t1, ys, false);
    TypedIs(t2, retype.column, retype.from);
    RelaxedNulls(xs, false, Typed(t2, retype.column, retype.from));
    TypedBetween(t1, ys, xs, retype.column, retype.from, false);
    NullsSwap(t1, ys, xs, false);
  }

  lemma StrategiesAre()
    ensures STRATEGIES ==
      Mixed(["intent_type", "flow"], Retype("updated_at", "TIMESTAMP WITH TIME ZONE", "TIMESTAMP WITHOUT TIME ZONE"),
            ["name", "success_rate"], RemovedConstraint("fk_strategies_user_id_users", OWNER_KEY))
  {}

  lemma KeyTurned(t: Table)
    ensures var key := RemovedConstraint("fk_strategies_user_id_users", OWNER_KEY);
      && Turned(key, true, t) == t.(constraints := t.constraints - {"fk_strategies_user_id_users"})
      && Turned(key, false, t) == t.(constraints := t.constraints["fk_strategies_user_id_users" := ForeignKey(["user_id"], Users, ["id"], "SET NULL")])
  {}

  const LOOSE := ["intent_type", "flow", "name", "success_rate"]

  lemma StrategiesUp(t: Table)
    ensures TurnedAll(STRATEGIES, true, t) == Synced(Strategies, t)
  {
    StrategiesAre();
    var retype := Retype("updated_at", "TIMESTAMP WITH TIME ZONE", "TIMESTAMP WITHOUT TIME ZONE");
    MixedUp(["intent_type", "flow"], retype, ["name", "success_rate"], RemovedConstraint("fk_strategies_user_id_users", OWNER_KEY), t);
    assert ["intent_type", "flow"] + ["name", "success_rate"] == LOOSE;
    KeyTurned(Typed(Nulls(t, LOOSE, true), "updated_at", "TIMESTAMP WITHOUT TIME ZONE"));
  }

  lemma StrategiesDown(t: Table)
    ensures TurnedAll(STRATEGIES, false, t) == Unsynced(Strategies, t)
  {
    StrategiesAre();
    var retype := Retype("updated_at", "TIMESTAMP WITH TIME ZONE", "TIMESTAMP WITHOUT TIME ZONE");
    MixedDown(["intent_type", "flow"], retype, ["name", "success_rate"], RemovedConstraint("fk_strategies_user_id_users", OWNER_KEY), t);
    assert ["intent_type", "flow"] + ["name", "success_rate"] == LOOSE;
    KeyTurned(t);
  }

  lemma StrategiesSpelledOut(g: Group)
    requires g == Alter(Strategies, STRATEGIES)
    ensures SpelledOut(g)
  {
    forall t ensures TurnedAll(g.changes, true, t) == Synced(g.table, t) && TurnedAll(g.changes, false, t) == Unsynced(g.table, t) {
      StrategiesUp(t);
      StrategiesDown(t);
    }
  }

  // ---- the revision ----

  lemma GroupSpelledOut(i: nat)
    requires i < |DRIFT|
    ensures SpelledOut(DRIFT[i])
  {
    FirstSpelledOut();
    SecondSpelledOut();
    ThirdSpelledOut();
    if i < |FIRST| {
      assert DRIFT[i] == FIRST[i];
    } else if i < |FIRST| + |SECOND| {
      assert DRIFT[i] == SECOND[i - |FIRST|];
    } else {
      assert DRIFT[i] == THIRD[i - |FIRST| - |SECOND|];
    }
  }

  lemma Unnamed(table: TableName, t: Table)
    requires Position(table) == 21
    ensures Synced(table, t) == t && Unsynced(table, t) == t
  {}

  lemma OwnPosition(table: TableName)
    requires Position(table) != 21
    ensures Position(table) < 21
  {}

  /** The groups come to what is spelled out, table by table. */
  ghost predicate AllSpelledOut(groups: seq<Group>) {
    && |groups| == 21 && SaneFrom(groups, 0)
    && forall i :: 0 <= i < |groups| ==> SpelledOut(groups[i])
  }

  lemma DriftSpelledOut()
    ensures AllSpelledOut(DRIFT)
  {
    DriftSane();
    forall i | 0 <= i < |DRIFT| ensures SpelledOut(DRIFT[i]) { GroupSpelledOut(i); }
  }

  lemma NamedTurned(groups: seq<Group>, i: nat, up: bool, t: Table)
    requires AllSpelledOut(groups) && i < |groups|
    requires ApplyAll(AllOps(ChangesOf(groups, groups[i].table), up), t).Done?
    ensures ApplyAll(AllOps(ChangesOf(groups, groups[i].table), up), t)
         == Done(if up then Synced(groups[i].table, t) else Unsynced(groups[i].table, t))
  {
    SaneDistinct(groups);
    assert Sane(groups[i], 0 + i) && SpelledOut(groups[i]);
    OwnChanges(groups, i);
    RanIsTurned(groups[i].changes, up, t);
  }

  lemma TableTurned(groups: seq<Group>, table: TableName, up: bool, t: Table)
    requires AllSpelledOut(groups) && ApplyAll(AllOps(ChangesOf(groups, table), up), t).Done?
    ensures ApplyAll(AllOps(ChangesOf(groups, table), up), t) == Done(if up then Synced(table, t) else Unsynced(table, t))
  {
    var i := Position(table);
    if i == 21 {
      forall j | 0 <= j < |groups| ensures groups[j].table != table { assert Sane(groups[j], 0 + j); }
      NotTheirs(groups, table);
      Unnamed(table, t);
    } else {
      OwnPosition(table);
      assert Sane(groups[i], 0 + i);
      SameTable(groups[i].table, table);
      NamedTurned(groups, i, up, t);
    }
  }

  lemma NoneAreCreated(groups: seq<Group>)
    requires AllSpelledOut(groups)
    ensures Created(groups) == {}
  {
    forall j | 0 <= j < |groups| ensures groups[j].Alter? { assert Sane(groups[j], 0 + j); }
    NoneCreated(groups);
  }

  lemma TableUp(groups: seq<Group>, db: Db, after: Db, table: TableName)
    requires AllSpelledOut(groups) && Created(groups) == {} && UpAt(groups, db, after, table)
    ensures table in after <==> table in db
    ensures table in db ==> after[table] == Synced(table, db[table])
  {
    if table in db { TableTurned(groups, table, true, db[table]); }
  }

  lemma TableDown(groups: seq<Group>, db: Db, after: Db, table: TableName)
    requires AllSpelledOut(groups) && Created(groups) == {} && DownAt(groups, db, after, table)
    ensures table in after <==> table in db
    ensures table in db ==> after[table] == Unsynced(table, db[table])
  {
    if table in db { TableTurned(groups, table, false, db[table]); }
  }

  lemma SpelledUp(groups: seq<Group>, db: Db)
    requires AllSpelledOut(groups) && ExecuteAll(Upgrade(groups), db).Done?
    ensures ExecuteAll(Upgrade(groups), db).value == map table | table in db :: Synced(table, db[table])
  {
    UpgradeOnTables(groups, db);
    NoneAreCreated(groups);
    var after := ExecuteAll(Upgrade(groups), db).value;
    forall table ensures (table in after <==> table in db) && (table in db ==> after[table] == Synced(table, db[table])) {
      TableUp(groups, db, after, table);
    }
    assert after.Keys == db.Keys;
  }

  lemma SpelledDown(groups: seq<Group>, db: Db)
    requires AllSpelledOut(groups) && ExecuteAll(Downgrade(groups), db).Done?
    ensures ExecuteAll(Downgrade(groups), db).value == map table | table in db :: Unsynced(table, db[table])
  {
    DowngradeOnTables(groups, db);
    NoneAreCreated(groups);
    var after := ExecuteAll(Downgrade(groups), db).value;
    forall table ensures (table in after <==> table in db) && (table in db ==> after[table] == Unsynced(table, db[table])) {
      TableDown(groups, db, after, table);
    }
    assert after.Keys == db.Keys;
  }

  /** Wherever the upgrade runs, it makes of every table what is spelled out, and nothing else. */
  lemma DriftUpgradeExactly(db: Db)
    requires ExecuteAll(Upgrade(DRIFT), db).Done?
    ensures ExecuteAll(Upgrade(DRIFT), db) == Done(map table | table in db :: Synced(table, db[table]))
  {
    DriftSpelledOut();
    SpelledUp(DRIFT, db);
  }

  /** ... and so does the downgrade. */
  lemma DriftDowngradeExactly(db: Db)
    requires ExecuteAll(Downgrade(DRIFT), db).Done?
    ensures ExecuteAll(Downgrade(DRIFT), db) == Done(map table | table in db :: Unsynced(table, db[table]))
  {
    DriftSpelledOut();
    SpelledDown(DRIFT, db);
  }
}
