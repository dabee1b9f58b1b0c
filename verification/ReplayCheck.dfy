/** The replay of the newest revisions on a populated database: its verdict, and when that
    verdict can be relied on. */
module ReplayCheck {
  import opened Options
  import opened Schema
  import opened Databases
  import opened Revisions
  import opened Replay

  // ---- the schema snapshot ----

  /** What the snapshot records of a table. */
  datatype View = View(columns: map<string, (string, bool)>, indexes: set<string>)

  function UniqueNames(t: Table): set<string> {
    set n | n in t.constraints && t.constraints[n].Unique?
  }

  /** A database lists the index behind a unique constraint among the table's indexes. */
  function IndexNames(t: Table): set<string> {
    t.indexes.Keys + UniqueNames(t)
  }

  function Viewed(t: Table): View {
    View(map c | c in t.columns :: (t.columns[c].typ, t.columns[c].nullable), IndexNames(t))
  }

  function Snapshot(db: Db): map<TableName, View> {
    map table | table in db :: Viewed(db[table])
  }

  method TakeSnapshot(db: Database) returns (out: map<TableName, View>)
    ensures out == Snapshot(db.tables)
  {
    out := map[];
    var todo := db.tables.Keys;
    while todo != {}
      invariant todo <= db.tables.Keys && out.Keys == db.tables.Keys - todo
      invariant forall table :: table in out ==> out[table] == Viewed(db.tables[table])
      decreases |todo|
    {
      var table :| table in todo;
      out := out[table := Viewed(db.tables[table])];
      todo := todo - {table};
    }
  }

  /** The tables whose views differ. */
  function Differing(before: map<TableName, View>, after: map<TableName, View>): set<TableName> {
    set table | table in before.Keys + after.Keys && !(table in before && table in after && before[table] == after[table])
  }

  // ---- the replay ----

  datatype Verdict =
    | NotAtHead
    | NothingToReplay              // the script fails: there is no last revision of an empty chain
    | SeedFailed(error: Error)
    | DowngradeFailed(error: Error)
    | UpgradeFailed(error: Error)
    | SchemaDiffers(tables: set<TableName>)
    | SeedLost
    | Replayed

  datatype End = End(verdict: Verdict, tables: Db, version: Option<string>)

  function Compared(before: Db, after: Db): Verdict {
    var differing := Differing(Snapshot(before), Snapshot(after));
    if differing == {} then Replayed else SchemaDiffers(differing)
  }

  /** Where the replay of seeded tables ends, from the head of the line, before the seed rows
      are checked. */
  ghost function EndOf(scripts: Scripts, line: seq<string>, steps: int, tables: Db): End
    requires Linear(scripts, line)
  {
    var n := Walked(line, steps);
    var head := Some(line[0]);
    if n == 0 then End(NothingToReplay, tables, head)
    else
      match ExecuteAll(DownOps(scripts, line[..n]), tables)
      case Failed(e) => End(DowngradeFailed(e), tables, head)
      case Done(mid) =>
        match ExecuteAll(UpOps(scripts, line[..n]), mid)
        case Failed(e) => End(UpgradeFailed(e), mid, Some(line[n]))
        case Done(after) => End(Compared(tables, after), after, head)
  }

  /** Where the whole script ends from tables at the head of the line. `seed` inserts the
      seed rows, `intact` checks them at the end. */
  ghost function ScriptEnd(scripts: Scripts, line: seq<string>, steps: int, seed: Db -> Outcome<Db>, intact: Db -> bool,
                           tables: Db): End
    requires Linear(scripts, line)
  {
    if Walked(line, steps) == 0 then End(NothingToReplay, tables, Some(line[0]))
    else
      match seed(tables)
      case Failed(e) => End(SeedFailed(e), tables, Some(line[0]))
      case Done(seeded) =>
        var end := EndOf(scripts, line, steps, seeded);
        if end.verdict.Replayed? && !intact(end.tables) then end.(verdict := SeedLost) else end
  }

  method ReplayNewest(db: Database, scripts: Scripts, steps: int, seed: Db -> Outcome<Db>, intact: Db -> bool,
                      ghost line: seq<string>)
    returns (verdict: Verdict)
    requires Linear(scripts, line)
    modifies db
    ensures End(verdict, db.tables, db.version) ==
      if old(db.version) != Some(line[0]) then End(NotAtHead, old(db.tables), old(db.version))
      else ScriptEnd(scripts, line, steps, seed, intact, old(db.tables))
  {
    var head := Head(scripts, line);
    if db.version != Some(head) { return NotAtHead; }
    var chain := WalkDown(scripts, steps, line);
    if chain == [] { return NothingToReplay; }
    ghost var n := |chain|;
    Below(scripts, line, n - 1);
    var target := scripts[chain[|chain| - 1]].down.value;
    match seed(db.tables)
    case Failed(e) => return SeedFailed(e);
    case Done(seeded) => db.tables := seeded;
    var before := TakeSnapshot(db);
    var error := db.Downgrade(scripts, target, line, n);
    if error.Some? { return DowngradeFailed(error.value); }
    error := db.UpgradeToHead(scripts, line, n);
    if error.Some? { return UpgradeFailed(error.value); }
    var after := TakeSnapshot(db);
    var differing := Differing(before, after);
    if differing != {} { return SchemaDiffers(differing); }
    if !intact(db.tables) { return SeedLost; }
    return Replayed;
  }

  // ---- the verdict, spelled out ----

  /** A database lists an index of that name for the table. */
  ghost predicate Listed(t: Table, name: string) {
    name in t.indexes || (name in t.constraints && t.constraints[name].Unique?)
  }

  /** The table is in both databases or in neither, and its columns have the same names, types
      and nullability and its indexes the same names. */
  ghost predicate LooksSame(table: TableName, a: Db, b: Db) {
    && (table in a <==> table in b)
    && (table in a ==>
          && (forall c :: c in a[table].columns <==> c in b[table].columns)
          && (forall c :: c in a[table].columns ==>
                a[table].columns[c].typ == b[table].columns[c].typ && a[table].columns[c].nullable == b[table].columns[c].nullable)
          && (forall n :: Listed(a[table], n) <==> Listed(b[table], n)))
  }

  lemma ViewsExactly(t: Table, u: Table)
    ensures Viewed(t) == Viewed(u) <==>
      && (forall c :: c in t.columns <==> c in u.columns)
      && (forall c :: c in t.columns ==> t.columns[c].typ == u.columns[c].typ && t.columns[c].nullable == u.columns[c].nullable)
      && (forall n :: Listed(t, n) <==> Listed(u, n))
  {
    assert forall n :: n in Viewed(t).indexes <==> Listed(t, n);
    assert forall n :: n in Viewed(u).indexes <==> Listed(u, n);
    forall c | c in t.columns ensures Viewed(t).columns[c] == (t.columns[c].typ, t.columns[c].nullable) {}
    forall c | c in u.columns ensures Viewed(u).columns[c] == (u.columns[c].typ, u.columns[c].nullable) {}
    if Viewed(t) == Viewed(u) {
      assert Viewed(t).columns.Keys == t.columns.Keys && Viewed(u).columns.Keys == u.columns.Keys;
    }
    if (forall c :: c in t.columns <==> c in u.columns)
       && (forall c :: c in t.columns ==> t.columns[c].typ == u.columns[c].typ && t.columns[c].nullable == u.columns[c].nullable)
       && (forall n :: Listed(t, n) <==> Listed(u, n)) {
      assert Viewed(t).columns == Viewed(u).columns;
      assert Viewed(t).indexes == Viewed(u).indexes;
    }
  }

  lemma DifferingExactly(a: Db, b: Db)
    ensures forall table :: table in Differing(Snapshot(a), Snapshot(b)) <==> !LooksSame(table, a, b)
  {
    forall table ensures table in Differing(Snapshot(a), Snapshot(b)) <==> !LooksSame(table, a, b) {
      if table in a && table in b { ViewsExactly(a[table], b[table]); }
    }
  }

  /** The one verdict on a replay in which everything ran: the tables that no longer look the
      same if there are any, else the loss of the seed rows if the check does not find them,
      else success. */
  ghost predicate JudgedOn(end: End, before: Db, after: Db, intact: Db -> bool) {
    && end.tables == after
    && (end.verdict.SchemaDiffers? || end.verdict.SeedLost? || end.verdict.Replayed?)
    && (end.verdict.SchemaDiffers? <==> exists table :: !LooksSame(table, before, after))
    && (end.verdict.SchemaDiffers? ==> forall table :: table in end.verdict.tables <==> !LooksSame(table, before, after))
    && (end.verdict.SeedLost? <==> !intact(after) && forall table :: LooksSame(table, before, after))
    && (end.verdict.Replayed? <==> intact(after) && forall table :: LooksSame(table, before, after))
  }

  lemma JudgedExactly(before: Db, after: Db, intact: Db -> bool, version: Option<string>)
    ensures var end := End(Compared(before, after), after, version);
      JudgedOn(if end.verdict.Replayed? && !intact(end.tables) then end.(verdict := SeedLost) else end, before, after, intact)
  {
    DifferingExactly(before, after);
    var differing := Differing(Snapshot(before), Snapshot(after));
    if table :| table in differing {
      assert !LooksSame(table, before, after);
    } else {
      assert forall table :: table !in differing ==> LooksSame(table, before, after);
    }
  }

  /** Every way the script can end, with the tables and the version it leaves. */
  lemma ScriptEndExactly(scripts: Scripts, line: seq<string>, steps: int, seed: Db -> Outcome<Db>, intact: Db -> bool,
                         tables: Db)
    requires Linear(scripts, line)
    ensures var end := ScriptEnd(scripts, line, steps, seed, intact, tables);
      var n := Walked(line, steps);
      && (steps <= 0 || |line| == 1 ==> end == End(NothingToReplay, tables, Some(line[0])))
      && (steps > 0 && |line| > 1 ==>
            && 1 <= n <= |line| - 1 && (n == steps || (n == |line| - 1 && n < steps))
            && (seed(tables).Failed? ==> end == End(SeedFailed(seed(tables).error), tables, Some(line[0])))
            && (seed(tables).Done? ==>
                  var seeded := seed(tables).value;
                  var down := ExecuteAll(DownOps(scripts, line[..n]), seeded);
                  && (down.Failed? ==> end == End(DowngradeFailed(down.error), seeded, Some(line[0])))
                  && (down.Done? ==>
                        var up := ExecuteAll(UpOps(scripts, line[..n]), down.value);
                        && (up.Failed? ==> end == End(UpgradeFailed(up.error), down.value, Some(line[n])))
                        && (up.Done? ==> JudgedOn(end, seeded, up.value, intact) && end.version == Some(line[0])))))
  {
    if Walked(line, steps) > 0 && seed(tables).Done? {
      var n, seeded := Walked(line, steps), seed(tables).value;
      var down := ExecuteAll(DownOps(scripts, line[..n]), seeded);
      if down.Done? {
        var up := ExecuteAll(UpOps(scripts, line[..n]), down.value);
        if up.Done? { JudgedExactly(seeded, up.value, intact, Some(line[0])); }
      }
    }
  }

  /** A replay of one revision. */
  lemma OneStepEnd(scripts: Scripts, line: seq<string>, db: Db)
    requires Linear(scripts, line) && 1 < |line|
    ensures ExecuteAll(scripts[line[0]].downgrade, db).Failed? ==> EndOf(scripts, line, 1, db).verdict.DowngradeFailed?
    ensures var down := ExecuteAll(scripts[line[0]].downgrade, db);
      down.Done? ==>
        && (ExecuteAll(scripts[line[0]].upgrade, down.value).Failed? ==> EndOf(scripts, line, 1, db).verdict.UpgradeFailed?)
        && (ExecuteAll(scripts[line[0]].upgrade, down.value).Done? ==>
              var after := ExecuteAll(scripts[line[0]].upgrade, down.value).value;
              EndOf(scripts, line, 1, db) == End(Compared(db, after), after, Some(line[0])))
  {
    assert line[..1] == [line[0]];
    OneOps(scripts, line[0]);
  }

  // ---- replay identity ----

  /** From this database on, upgrading after the downgrade gives the schema back, whatever
      became of the rows in between. */
  ghost predicate Redone(script: Script, db: Db) {
    var down := ExecuteAll(script.downgrade, db);
    down.Done? ==>
      forall b :: SameSchema(b, down.value) && ExecuteAll(script.upgrade, b).Done? ==>
        SameSchema(ExecuteAll(script.upgrade, b).value, db)
  }

  /** Every revision of the chain finds itself redone when its turn comes. */
  ghost predicate AllRedone(scripts: Scripts, chain: seq<string>, db: Db)
    requires forall i :: 0 <= i < |chain| ==> chain[i] in scripts
  {
    chain == [] ||
    (Redone(scripts[chain[0]], db) &&
     (ExecuteAll(scripts[chain[0]].downgrade, db).Done? ==>
      AllRedone(scripts, chain[1..], ExecuteAll(scripts[chain[0]].downgrade, db).value)))
  }

  lemma {:induction false} ChainRedone(scripts: Scripts, chain: seq<string>, db: Db)
    requires forall i :: 0 <= i < |chain| ==> chain[i] in scripts
    requires AllRedone(scripts, chain, db) && ExecuteAll(DownOps(scripts, chain), db).Done?
    ensures var mid := ExecuteAll(DownOps(scripts, chain), db).value;
      ExecuteAll(UpOps(scripts, chain), mid).Done? ==> SameSchema(ExecuteAll(UpOps(scripts, chain), mid).value, db)
  {
    if chain != [] {
      var s, rest := scripts[chain[0]], chain[1..];
      ExecuteSplit(s.downgrade, DownOps(scripts, rest), db);
      var db1 := ExecuteAll(s.downgrade, db).value;
      var mid := ExecuteAll(DownOps(scripts, chain), db).value;
      ChainRedone(scripts, rest, db1);
      ExecuteSplit(UpOps(scripts, rest), s.upgrade, mid);
    }
  }

  lemma SameSchemaSameSnapshot(a: Db, b: Db)
    requires SameSchema(a, b)
    ensures Snapshot(a) == Snapshot(b)
  {
    forall table | table in a ensures Viewed(a[table]) == Viewed(b[table]) {
      assert SchemaOf(a[table]) == SchemaOf(b[table]);
      assert Viewed(SchemaOf(a[table])) == Viewed(a[table]) && Viewed(SchemaOf(b[table])) == Viewed(b[table]);
    }
  }

  /** If the revisions walked are redone, then the replay either fails in a migration or
      ends with `Replayed`, at head, and with the very schema it began with. */
  lemma ReplayIdentity(scripts: Scripts, line: seq<string>, steps: int, db: Db)
    requires Linear(scripts, line) && 1 <= steps && 1 < |line|
    requires AllRedone(scripts, line[..Walked(line, steps)], db)
    ensures var end := EndOf(scripts, line, steps, db);
      && (end.verdict.DowngradeFailed? || end.verdict.UpgradeFailed? || end.verdict.Replayed?)
      && (end.verdict.Replayed? ==> SameSchema(end.tables, db) && end.version == Some(line[0]))
  {
    var chain := line[..Walked(line, steps)];
    var down := ExecuteAll(DownOps(scripts, chain), db);
    if down.Done? && ExecuteAll(UpOps(scripts, chain), down.value).Done? {
      ChainRedone(scripts, chain, db);
      SameSchemaSameSnapshot(ExecuteAll(UpOps(scripts, chain), down.value).value, db);
    }
  }

  // ---- databases that got to the head by upgrades ----

  /** The upgrade runs on the database and its downgrade takes it back. */
  ghost predicate Undone(script: Script, db: Db) {
    ExecuteAll(script.upgrade, db).Done? &&
    ExecuteAll(script.downgrade, ExecuteAll(script.upgrade, db).value) == Done(db)
  }

  /** Each upgrade of the chain, made in turn from the origin, is undone by its downgrade. */
  ghost predicate Installed(scripts: Scripts, chain: seq<string>, origin: Db)
    requires forall i :: 0 <= i < |chain| ==> chain[i] in scripts
  {
    chain == [] ||
    (Installed(scripts, chain[1..], origin) &&
     var before := ExecuteAll(UpOps(scripts, chain[1..]), origin);
     before.Done? && Undone(scripts[chain[0]], before.value))
  }

  lemma UndoneIsRedone(script: Script, before: Db, db: Db)
    requires Undone(script, before) && SameSchema(db, ExecuteAll(script.upgrade, before).value)
    ensures Redone(script, db)
    ensures var down := ExecuteAll(script.downgrade, db);
      down.Done? ==> SameSchema(down.value, before)
  {
    var up := ExecuteAll(script.upgrade, before).value;
    var down := ExecuteAll(script.downgrade, db);
    if down.Done? {
      MigrationSchema(script.downgrade, db, up);
      forall b | SameSchema(b, down.value) && ExecuteAll(script.upgrade, b).Done?
        ensures SameSchema(ExecuteAll(script.upgrade, b).value, db)
      {
        MigrationSchema(script.upgrade, b, before);
      }
    }
  }

  /** However its rows changed since, a database that has the schema the upgrades left can
      be replayed: revisions that undo their own upgrades also redo their downgrades. */
  lemma {:induction false} InstalledIsRedone(scripts: Scripts, chain: seq<string>, origin: Db, db: Db)
    requires forall i :: 0 <= i < |chain| ==> chain[i] in scripts
    requires Installed(scripts, chain, origin) && ExecuteAll(UpOps(scripts, chain), origin).Done?
    requires SameSchema(db, ExecuteAll(UpOps(scripts, chain), origin).value)
    ensures AllRedone(scripts, chain, db)
  {
    if chain != [] {
      var s, rest := scripts[chain[0]], chain[1..];
      ExecuteSplit(UpOps(scripts, rest), s.upgrade, origin);
      var before := ExecuteAll(UpOps(scripts, rest), origin).value;
      UndoneIsRedone(s, before, db);
      var down := ExecuteAll(s.downgrade, db);
      if down.Done? { InstalledIsRedone(scripts, rest, origin, down.value); }
    }
  }

  // ---- rows ----

  /** The rows of a table keep their values, in order, in every column that no statement of
      the walked revisions writes or drops. */
  lemma ReplayKeepsRows(scripts: Scripts, line: seq<string>, steps: int, db: Db, table: TableName, columns: set<string>)
    requires Linear(scripts, line) && table in db
    requires var chain := line[..Walked(line, steps)];
      forall op :: op in DownOps(scripts, chain) || op in UpOps(scripts, chain) ==> Leaves(op, table, columns)
    ensures var end := EndOf(scripts, line, steps, db);
      table in end.tables && Agree(db[table].rows, end.tables[table].rows, columns)
  {
    var chain := line[..Walked(line, steps)];
    var down := ExecuteAll(DownOps(scripts, chain), db);
    if down.Done? {
      RowsKept(DownOps(scripts, chain), db, table, columns);
      var up := ExecuteAll(UpOps(scripts, chain), down.value);
      if up.Done? { RowsKept(UpOps(scripts, chain), down.value, table, columns); }
    }
  }

  /** The check looks only at the watched columns of the watched tables. */
  ghost predicate WatchesOnly(intact: Db -> bool, watched: map<TableName, set<string>>) {
    forall a, b :: AgreeOn(a, b, watched) ==> intact(a) == intact(b)
  }

  ghost predicate AgreeOn(a: Db, b: Db, watched: map<TableName, set<string>>) {
    forall table :: table in watched ==> table in a && table in b && Agree(a[table].rows, b[table].rows, watched[table])
  }

  /** A check of columns that no walked statement writes never finds the seed lost. */
  lemma SeedSurvives(scripts: Scripts, line: seq<string>, steps: int, seed: Db -> Outcome<Db>, intact: Db -> bool,
                     watched: map<TableName, set<string>>, db: Db)
    requires Linear(scripts, line) && WatchesOnly(intact, watched)
    requires seed(db).Done? && intact(seed(db).value) && watched.Keys <= seed(db).value.Keys
    requires var chain := line[..Walked(line, steps)];
      forall op, table :: (op in DownOps(scripts, chain) || op in UpOps(scripts, chain)) && table in watched ==>
        Leaves(op, table, watched[table])
    ensures !ScriptEnd(scripts, line, steps, seed, intact, db).verdict.SeedLost?
  {
    var seeded := seed(db).value;
    var end := EndOf(scripts, line, steps, seeded);
    forall table | table in watched
      ensures table in end.tables && Agree(seeded[table].rows, end.tables[table].rows, watched[table])
    {
      ReplayKeepsRows(scripts, line, steps, seeded, table, watched[table]);
    }
    assert AgreeOn(seeded, end.tables, watched);
  }
}
