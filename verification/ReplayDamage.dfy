/** Whole chains of revisions, table by table: when a downgrade restores the database, and
    when a replay damages the schema without showing it. */
module ReplayDamage {
  import opened Options
  import opened Schema
  import opened Changes
  import opened Databases
  import opened Revisions
  import opened Independence
  import opened RoundTrips
  import opened ColumnTrips
  import opened Replay
  import opened ReplayCheck
  import opened Unseen

  // ---- what the groups do to each table ----

  /** All changes that the groups make to the table, in order. */
  function ChangesOf(groups: seq<Group>, table: TableName): seq<Change> {
    if groups == [] then []
    else
      var last := groups[|groups| - 1];
      ChangesOf(groups[..|groups| - 1], table) + if last.table == table then last.changes else []
  }

  function Created(groups: seq<Group>): set<TableName> {
    if groups == [] then {}
    else
      var last := groups[|groups| - 1];
      Created(groups[..|groups| - 1]) + if last.Create? then {last.table} else {}
  }

  /** The table as it is created, before any of the changes. */
  function FreshOf(groups: seq<Group>, table: TableName): Table
    requires table in Created(groups)
  {
    var last := groups[|groups| - 1];
    if last.Create? && last.table == table then Fresh(last) else FreshOf(groups[..|groups| - 1], table)
  }

  lemma {:induction false} UpsJoin(xs: seq<Change>, ys: seq<Change>)
    ensures Ups(xs + ys) == Ups(xs) + Ups(ys)
  {
    if xs == [] {
      assert xs + ys == ys;
    } else {
      assert (xs + ys)[1..] == xs[1..] + ys;
      UpsJoin(xs[1..], ys);
      Associate(Up(xs[0]), Ups(xs[1..]), Ups(ys));
    }
  }

  lemma {:induction false} DownsJoin(xs: seq<Change>, ys: seq<Change>)
    ensures Downs(xs + ys) == Downs(ys) + Downs(xs)
  {
    if xs == [] {
      assert xs + ys == ys;
    } else {
      assert (xs + ys)[1..] == xs[1..] + ys;
      DownsJoin(xs[1..], ys);
      Associate(Downs(ys), Downs(xs[1..]), Down(xs[0]));
    }
  }

  /** More changes of the table, made after the others. */
  lemma UpsFurther(xs: seq<Change>, ys: seq<Change>, t: Table, t1: Table)
    requires ApplyAll(Ups(xs), t) == Done(t1)
    ensures ApplyAll(Ups(xs + ys), t) == ApplyAll(Ups(ys), t1)
  {
    UpsJoin(xs, ys);
    ApplySplit(Ups(xs), Ups(ys), t);
  }

  lemma DownsFurther(xs: seq<Change>, ys: seq<Change>, t: Table, t1: Table)
    requires ApplyAll(Downs(ys), t) == Done(t1)
    ensures ApplyAll(Downs(xs + ys), t) == ApplyAll(Downs(xs), t1)
  {
    DownsJoin(xs, ys);
    ApplySplit(Downs(ys), Downs(xs), t);
  }

  /** What became of the table on the way up: it was changed, or created and changed, or is
      still not there. */
  ghost predicate UpAt(groups: seq<Group>, mid: Db, after: Db, table: TableName) {
    if table in mid then
      table !in Created(groups) && table in after && ApplyAll(Ups(ChangesOf(groups, table)), mid[table]) == Done(after[table])
    else if table in Created(groups) then
      table in after && ApplyAll(Ups(ChangesOf(groups, table)), FreshOf(groups, table)) == Done(after[table])
    else
      table !in after && ChangesOf(groups, table) == []
  }

  /** ... and on the way down. */
  ghost predicate DownAt(groups: seq<Group>, db: Db, mid: Db, table: TableName) {
    if table in Created(groups) then table in db && table !in mid
    else (table in db <==> table in mid) && (table in db ==> ApplyAll(Downs(ChangesOf(groups, table)), db[table]) == Done(mid[table]))
  }

  ghost predicate UpBy(groups: seq<Group>, mid: Db, after: Db) {
    forall table :: UpAt(groups, mid, after, table)
  }

  ghost predicate DownBy(groups: seq<Group>, db: Db, mid: Db) {
    forall table :: DownAt(groups, db, mid, table)
  }

  /** A last group that is about another table, or changes nothing, makes no difference. */
  lemma OtherLast(groups: seq<Group>, table: TableName)
    requires groups != []
    requires var last := groups[|groups| - 1]; last.table != table || (last.Alter? && last.changes == [])
    ensures var front := groups[..|groups| - 1];
      && ChangesOf(groups, table) == ChangesOf(front, table)
      && (table in Created(groups) <==> table in Created(front))
      && (table in Created(groups) ==> FreshOf(groups, table) == FreshOf(front, table))
  {
    var xs := ChangesOf(groups[..|groups| - 1], table);
    assert xs + [] == xs;
  }

  lemma OwnLast(groups: seq<Group>)
    requires groups != []
    ensures var front, last := groups[..|groups| - 1], groups[|groups| - 1];
      && ChangesOf(groups, last.table) == ChangesOf(front, last.table) + last.changes
      && (last.Create? ==> last.table in Created(groups) && FreshOf(groups, last.table) == Fresh(last))
      && (last.Alter? ==>
            && (last.table in Created(groups) <==> last.table in Created(front))
            && (last.table in Created(groups) ==> FreshOf(groups, last.table) == FreshOf(front, last.table)))
  {}

  lemma NothingThere(table: TableName, ops: seq<TableOp>, db: Db)
    requires ops != [] && table !in db
    ensures ExecuteAll(OnAll(table, ops), db).Failed?
  {
    assert OnAll(table, ops)[0] == On(table, ops[0]);
  }

  lemma SomethingToDo(changes: seq<Change>)
    requires changes != []
    ensures Ups(changes) != [] && Downs(changes) != []
  {
    assert |Up(changes[0])| > 0 && |Down(changes[0])| > 0;
  }

  /** A group that alters a table that is not there changes nothing, or fails. */
  lemma NothingToAlter(g: Group, db: Db)
    requires g.Alter? && g.table !in db && g.changes != []
    ensures ExecuteAll(GroupUp(g), db).Failed? && ExecuteAll(GroupDown(g), db).Failed?
  {
    SomethingToDo(g.changes);
    NothingThere(g.table, Ups(g.changes), db);
    NothingThere(g.table, Downs(g.changes), db);
    assert GroupUp(g) == OnAll(g.table, Ups(g.changes)) && GroupDown(g) == OnAll(g.table, Downs(g.changes));
  }

  lemma NoChanges(g: Group, db: Db)
    requires g.Alter? && g.changes == []
    ensures GroupUp(g) == [] && GroupDown(g) == []
  {}

  lemma {:induction false} UpgradeOnTables(groups: seq<Group>, mid: Db)
    requires ExecuteAll(Upgrade(groups), mid).Done?
    ensures UpBy(groups, mid, ExecuteAll(Upgrade(groups), mid).value)
  {
    if groups != [] {
      var front, last := groups[..|groups| - 1], groups[|groups| - 1];
      LastUpgraded(groups, mid);
      UpgradeOnTables(front, mid);
      var a := ExecuteAll(Upgrade(front), mid).value;
      if last.Alter? && last.table !in a {
        if last.changes != [] { NothingToAlter(last, a); }
        NoChanges(last, a);
        UpWithNothing(groups, mid, a);
      } else {
        GroupUpRan(last, a);
        UpWithLast(groups, mid, a, ExecuteAll(GroupUp(last), a).value[last.table]);
      }
    }
  }

  lemma UpWithNothing(groups: seq<Group>, mid: Db, a: Db)
    requires groups != [] && UpBy(groups[..|groups| - 1], mid, a)
    requires var last := groups[|groups| - 1]; last.Alter? && last.changes == []
    ensures UpBy(groups, mid, a)
  {
    forall table ensures UpAt(groups, mid, a, table) {
      assert UpAt(groups[..|groups| - 1], mid, a, table);
      OtherLast(groups, table);
    }
  }

  lemma UpOwn(groups: seq<Group>, mid: Db, a: Db, t: Table)
    requires groups != []
    requires var last := groups[|groups| - 1];
      && UpAt(groups[..|groups| - 1], mid, a, last.table) && (last.Create? <==> last.table !in a)
      && ApplyAll(Ups(last.changes), if last.Create? then Fresh(last) else a[last.table]) == Done(t)
    ensures var last := groups[|groups| - 1]; UpAt(groups, mid, a[last.table := t], last.table)
  {
    OwnLast(groups);
    var front, last := groups[..|groups| - 1], groups[|groups| - 1];
    var table, before := last.table, ChangesOf(front, last.table);
    if last.Create? {
      assert before + last.changes == last.changes;
    } else if table in mid {
      UpsFurther(before, last.changes, mid[table], a[table]);
    } else {
      UpsFurther(before, last.changes, FreshOf(front, table), a[table]);
    }
  }

  lemma UpWithLast(groups: seq<Group>, mid: Db, a: Db, t: Table)
    requires groups != [] && UpBy(groups[..|groups| - 1], mid, a)
    requires var last := groups[|groups| - 1];
      && (last.Create? <==> last.table !in a)
      && ApplyAll(Ups(last.changes), if last.Create? then Fresh(last) else a[last.table]) == Done(t)
    ensures UpBy(groups, mid, a[groups[|groups| - 1].table := t])
  {
    var last := groups[|groups| - 1];
    var after := a[last.table := t];
    forall table ensures UpAt(groups, mid, after, table) {
      assert UpAt(groups[..|groups| - 1], mid, a, table);
      if table == last.table { UpOwn(groups, mid, a, t); } else { OtherLast(groups, table); }
    }
  }

  lemma {:induction false} DowngradeOnTables(groups: seq<Group>, db: Db)
    requires ExecuteAll(Downgrade(groups), db).Done?
    ensures DownBy(groups, db, ExecuteAll(Downgrade(groups), db).value)
    decreases |groups|
  {
    if groups != [] {
      var front, last := groups[..|groups| - 1], groups[|groups| - 1];
      LastDowngraded(groups, db);
      var mid := ExecuteAll(Downgrade(groups), db).value;
      if last.table !in db {
        LastThere(last, db);
        NoChanges(last, db);
        DowngradeOnTables(front, db);
        DownWithNothing(groups, db, mid);
      } else {
        GroupDownRan(last, db);
        var d := ExecuteAll(GroupDown(last), db).value;
        DowngradeOnTables(front, d);
        DownWithLast(groups, db, d, mid);
      }
    }
  }

  lemma NotThere(table: TableName, ops: seq<TableOp>, db: Db)
    requires table !in db
    ensures ExecuteAll(OnAll(table, ops) + [DropTable(table)], db).Failed?
  {
    var all := OnAll(table, ops) + [DropTable(table)];
    assert Execute(all[0], db).Failed?;
  }

  /** A downgrade that ran found the table, unless it had nothing to do. */
  lemma LastThere(g: Group, db: Db)
    requires g.table !in db && ExecuteAll(GroupDown(g), db).Done?
    ensures g.Alter? && g.changes == []
  {
    if g.Create? { NotThere(g.table, Downs(g.changes), db); }
    if g.Alter? && g.changes != [] { NothingToAlter(g, db); }
  }

  lemma DownWithNothing(groups: seq<Group>, db: Db, mid: Db)
    requires groups != [] && DownBy(groups[..|groups| - 1], db, mid)
    requires var last := groups[|groups| - 1]; last.Alter? && last.changes == []
    ensures DownBy(groups, db, mid)
  {
    forall table ensures DownAt(groups, db, mid, table) {
      assert DownAt(groups[..|groups| - 1], db, mid, table);
      OtherLast(groups, table);
    }
  }

  lemma DownWithLast(groups: seq<Group>, db: Db, d: Db, mid: Db)
    requires groups != [] && DownBy(groups[..|groups| - 1], d, mid)
    requires var last := groups[|groups| - 1];
      && last.table in db && ApplyAll(Downs(last.changes), db[last.table]).Done?
      && d == if last.Create? then db - {last.table} else db[last.table := ApplyAll(Downs(last.changes), db[last.table]).value]
    ensures DownBy(groups, db, mid)
  {
    var front, last := groups[..|groups| - 1], groups[|groups| - 1];
    forall table ensures DownAt(groups, db, mid, table) {
      assert DownAt(front, d, mid, table);
      if table == last.table {
        OwnLast(groups);
        if last.Alter? && table !in Created(front) { DownsFurther(ChangesOf(front, table), last.changes, db[table], d[table]); }
      } else {
        OtherLast(groups, table);
      }
    }
  }

  /** The tables that a downgrade has something to do with are there, if it runs. */
  lemma {:induction false} DownFinds(groups: seq<Group>, db: Db, i: nat)
    requires ExecuteAll(Downgrade(groups), db).Done? && i < |groups| && (groups[i].Create? || groups[i].changes != [])
    ensures groups[i].table in db
    decreases |groups|
  {
    if i == |groups| - 1 {
      LastFound(groups, db);
    } else {
      var d := AfterLast(groups, db);
      DownFinds(groups[..|groups| - 1], d, i);
    }
  }

  lemma LastFound(groups: seq<Group>, db: Db)
    requires groups != [] && ExecuteAll(Downgrade(groups), db).Done?
    requires groups[|groups| - 1].Create? || groups[|groups| - 1].changes != []
    ensures groups[|groups| - 1].table in db
  {
    var last := groups[|groups| - 1];
    LastDowngraded(groups, db);
    if last.table !in db { LastThere(last, db); }
  }

  /** What the last group leaves for the downgrade of the others has no table that was not there. */
  lemma AfterLast(groups: seq<Group>, db: Db) returns (d: Db)
    requires groups != [] && ExecuteAll(Downgrade(groups), db).Done?
    ensures ExecuteAll(Downgrade(groups[..|groups| - 1]), d).Done? && d.Keys <= db.Keys
  {
    var last := groups[|groups| - 1];
    LastDowngraded(groups, db);
    d := ExecuteAll(GroupDown(last), db).value;
    if last.table !in db {
      LastThere(last, db);
      NoChanges(last, db);
    } else {
      GroupDownRan(last, db);
    }
  }

  // ---- up and down ----

  /** The groups make separate changes to distinct tables that are there. */
  ghost predicate Alterations(groups: seq<Group>, tables: set<TableName>) {
    && DistinctTables(groups)
    && forall i :: 0 <= i < |groups| ==> groups[i].Alter? && groups[i].table in tables && Separate(groups[i].changes)
  }

  ghost predicate AllAsExpected(groups: seq<Group>, db: Db)
    requires Alterations(groups, db.Keys)
  {
    forall i :: 0 <= i < |groups| ==> AllExpected(groups[i].changes, true, db[groups[i].table])
  }

  lemma {:induction false} OwnChanges(groups: seq<Group>, i: nat)
    requires DistinctTables(groups) && i < |groups|
    ensures ChangesOf(groups, groups[i].table) == groups[i].changes
  {
    var front := groups[..|groups| - 1];
    if i == |groups| - 1 {
      assert forall j :: 0 <= j < |front| ==> front[j].table != groups[i].table;
      NotTheirs(front, groups[i].table);
    } else {
      assert forall j, k :: 0 <= j < k < |front| ==> front[j].table != front[k].table;
      OwnChanges(front, i);
      assert groups[i].table != groups[|groups| - 1].table;
    }
  }

  lemma {:induction false} NotTheirs(groups: seq<Group>, table: TableName)
    requires forall j :: 0 <= j < |groups| ==> groups[j].table != table
    ensures ChangesOf(groups, table) == []
  {
    if groups != [] { NotTheirs(groups[..|groups| - 1], table); }
  }

  lemma {:induction false} NoneCreated(groups: seq<Group>)
    requires forall i :: 0 <= i < |groups| ==> groups[i].Alter?
    ensures Created(groups) == {}
  {
    if groups != [] { NoneCreated(groups[..|groups| - 1]); }
  }

  /** The downgrade gives back the very database the upgrade found exactly when every change
      of the revision found its table as expected. */
  lemma RevisionUndoneExactly(groups: seq<Group>, db: Db)
    requires Sound(db) && Alterations(groups, db.Keys) && ExecuteAll(Upgrade(groups), db).Done?
    ensures ExecuteAll(Downgrade(groups), ExecuteAll(Upgrade(groups), db).value) == Done(db) <==> AllAsExpected(groups, db)
  {
    var after := ExecuteAll(Upgrade(groups), db).value;
    if AllAsExpected(groups, db) {
      forall i | 0 <= i < |groups| ensures GroupPre(groups[i], db) {
        AllPreIsPreAll(groups[i].changes, db[groups[i].table]);
      }
      PreFromStart(groups, db);
      RevisionUndone(groups, db);
    } else if ExecuteAll(Downgrade(groups), after) == Done(db) {
      UpgradeOnTables(groups, db);
      DowngradeOnTables(groups, after);
      NoneCreated(groups);
      forall i | 0 <= i < |groups| ensures AllExpected(groups[i].changes, true, db[groups[i].table]) {
        OwnChanges(groups, i);
        assert UpAt(groups, db, after, groups[i].table) && DownAt(groups, after, db, groups[i].table);
        UndoneTogetherExactly(groups[i].changes, db[groups[i].table]);
      }
    }
  }

  // ---- down and up ----

  /** A database that meets the revision's post-state is redone, so that a replay over it
      restores the schema. */
  lemma PostIsRedone(groups: seq<Group>, db: Db, down: Option<string>)
    requires Sound(db) && RevisionPost(groups, db)
    ensures Redone(Script(down, Upgrade(groups), Downgrade(groups)), db)
  {
    if ExecuteAll(Downgrade(groups), db).Done? {
      forall b | SameSchema(b, ExecuteAll(Downgrade(groups), db).value) && ExecuteAll(Upgrade(groups), b).Done?
        ensures SameSchema(ExecuteAll(Upgrade(groups), b).value, db)
      {
        RevisionRedone(groups, db, b);
      }
    }
  }

  /** On every table that is not created, the changes of all groups together are tidy. */
  ghost predicate AllTidy(groups: seq<Group>) {
    forall table :: table !in Created(groups) ==> Tidy(ChangesOf(groups, table))
  }

  /** The table that the groups create, with all their changes. */
  function Declared(groups: seq<Group>, table: TableName): Outcome<Table>
    requires table in Created(groups)
  {
    ApplyAll(Ups(ChangesOf(groups, table)), FreshOf(groups, table))
  }

  /** The table at head is what its downgrades expect: as the changes leave it, or, if it is
      created, as it is declared. */
  ghost predicate MetAt(groups: seq<Group>, db: Db, table: TableName)
    requires table in db
  {
    if table in Created(groups)
    then Declared(groups, table).Done? && SchemaOf(Declared(groups, table).value) == SchemaOf(db[table])
    else AllPost(ChangesOf(groups, table), db[table])
  }

  /** ... as far as the snapshot looks. */
  ghost predicate SeenAtHead(groups: seq<Group>, db: Db, table: TableName)
    requires table in db
  {
    if table in Created(groups)
    then Declared(groups, table).Done? && Viewed(Declared(groups, table).value) == Viewed(db[table])
    else AllSeen(ChangesOf(groups, table), db[table])
  }

  ghost predicate AllMet(groups: seq<Group>, db: Db) {
    forall table :: table in db ==> MetAt(groups, db, table)
  }

  ghost predicate AllSeenAtHead(groups: seq<Group>, db: Db) {
    forall table :: table in db ==> SeenAtHead(groups, db, table)
  }

  /** A table that is not created comes back as its changes alone decide. */
  lemma AlteredBack(changes: seq<Change>, t: Table, down: Table, u: Table, back: Table)
    requires Tidy(changes) && ApplyAll(Downs(changes), t) == Done(down)
    requires SchemaOf(u) == SchemaOf(down) && ApplyAll(Ups(changes), u) == Done(back)
    ensures SchemaOf(back) == SchemaOf(t) <==> AllPost(changes, t)
    ensures Viewed(back) == Viewed(t) <==> AllSeen(changes, t)
  {
    RedoneTogetherExactly(changes, t, u);
    SeenTogetherExactly(changes, t, u);
  }

  /** After going down and up, every table has its schema, or its look, exactly when it met
      its expectation. */
  lemma TableBack(groups: seq<Group>, db: Db, mid: Db, b: Db, after: Db, table: TableName)
    requires AllTidy(groups) && table in db && SameSchema(b, mid)
    requires DownAt(groups, db, mid, table) && UpAt(groups, b, after, table)
    ensures table in after
    ensures SchemaOf(after[table]) == SchemaOf(db[table]) <==> MetAt(groups, db, table)
    ensures Viewed(after[table]) == Viewed(db[table]) <==> SeenAtHead(groups, db, table)
  {
    if table !in Created(groups) {
      assert SchemaOf(b[table]) == SchemaOf(mid[table]);
      AlteredBack(ChangesOf(groups, table), db[table], mid[table], b[table], after[table]);
    }
  }

  /** After going down and up, over whatever rows, the schema is the same exactly when every
      table at head was as the downgrades expect, and the snapshot exactly when it was as far
      as the snapshot looks. */
  lemma RevisionSeenExactly(groups: seq<Group>, db: Db, b: Db)
    requires AllTidy(groups) && ExecuteAll(Downgrade(groups), db).Done?
    requires SameSchema(b, ExecuteAll(Downgrade(groups), db).value) && ExecuteAll(Upgrade(groups), b).Done?
    ensures var after := ExecuteAll(Upgrade(groups), b).value;
      && (SameSchema(after, db) <==> AllMet(groups, db))
      && (Snapshot(after) == Snapshot(db) <==> AllSeenAtHead(groups, db))
  {
    var mid, after := ExecuteAll(Downgrade(groups), db).value, ExecuteAll(Upgrade(groups), b).value;
    DowngradeOnTables(groups, db);
    UpgradeOnTables(groups, b);
    forall table ensures table in after <==> table in db {
      assert DownAt(groups, db, mid, table) && UpAt(groups, b, after, table);
    }
    assert after.Keys == db.Keys;
    forall table | table in db
      ensures SchemaOf(after[table]) == SchemaOf(db[table]) <==> MetAt(groups, db, table)
      ensures Viewed(after[table]) == Viewed(db[table]) <==> SeenAtHead(groups, db, table)
    {
      assert DownAt(groups, db, mid, table) && UpAt(groups, b, after, table);
      TableBack(groups, db, mid, b, after, table);
    }
    SnapshotsAgree(after, db);
  }

  lemma SnapshotsAgree(a: Db, b: Db)
    requires a.Keys == b.Keys
    ensures Snapshot(a) == Snapshot(b) <==> forall table :: table in b ==> Viewed(a[table]) == Viewed(b[table])
  {
    if Snapshot(a) == Snapshot(b) {
      forall table | table in b ensures Viewed(a[table]) == Viewed(b[table]) {
        assert Snapshot(a)[table] == Snapshot(b)[table];
      }
    }
  }

  // ---- chains of revisions ----

  lemma {:induction false} UpgradeJoin(xs: seq<Group>, ys: seq<Group>)
    ensures Upgrade(xs + ys) == Upgrade(xs) + Upgrade(ys)
  {
    if xs == [] {
      assert xs + ys == ys;
    } else {
      assert (xs + ys)[1..] == xs[1..] + ys;
      UpgradeJoin(xs[1..], ys);
      Associate(GroupUp(xs[0]), Upgrade(xs[1..]), Upgrade(ys));
    }
  }

  lemma {:induction false} DowngradeJoin(xs: seq<Group>, ys: seq<Group>)
    ensures Downgrade(xs + ys) == Downgrade(ys) + Downgrade(xs)
  {
    if xs == [] {
      assert xs + ys == ys;
    } else {
      assert (xs + ys)[1..] == xs[1..] + ys;
      DowngradeJoin(xs[1..], ys);
      Associate(Downgrade(ys), Downgrade(xs[1..]), GroupDown(xs[0]));
    }
  }

  /** The script makes the groups' changes and takes them back. */
  ghost predicate Makes(script: Script, groups: seq<Group>) {
    script.upgrade == Upgrade(groups) && script.downgrade == Downgrade(groups)
  }

  /** Every revision of the chain is a script of the groups listed for it. */
  ghost predicate Scripted(scripts: Scripts, makes: map<string, seq<Group>>, chain: seq<string>) {
    forall i :: 0 <= i < |chain| ==> chain[i] in scripts && chain[i] in makes && Makes(scripts[chain[i]], makes[chain[i]])
  }

  /** The groups of all revisions of the chain, which lists the newest first, in the order of
      their upgrades. */
  function Joint(makes: map<string, seq<Group>>, chain: seq<string>): seq<Group>
    requires forall i :: 0 <= i < |chain| ==> chain[i] in makes
  {
    if chain == [] then [] else Joint(makes, chain[1..]) + makes[chain[0]]
  }

  lemma {:induction false} ChainIsJoint(scripts: Scripts, makes: map<string, seq<Group>>, chain: seq<string>)
    requires Scripted(scripts, makes, chain)
    ensures UpOps(scripts, chain) == Upgrade(Joint(makes, chain))
    ensures DownOps(scripts, chain) == Downgrade(Joint(makes, chain))
  {
    if chain != [] {
      var rest := chain[1..];
      assert forall i :: 0 <= i < |rest| ==> rest[i] == chain[i + 1];
      ChainIsJoint(scripts, makes, rest);
      UpgradeJoin(Joint(makes, rest), makes[chain[0]]);
      DowngradeJoin(Joint(makes, rest), makes[chain[0]]);
    }
  }

  // ---- the verdict ----

  lemma ComparedExactly(before: Db, after: Db)
    ensures Compared(before, after).Replayed? <==> Snapshot(before) == Snapshot(after)
  {
    var v, w := Snapshot(before), Snapshot(after);
    if Differing(v, w) == {} {
      forall table ensures (table in v <==> table in w) && (table in v ==> v[table] == w[table]) {
        assert table !in Differing(v, w);
      }
      assert v == w;
    }
  }

  /** A replay of any number of revisions whose migrations run ends with `Replayed` exactly
      when every table at head was as far as the snapshot looks as the revisions walked leave
      it, and has restored the schema exactly when it was so altogether. */
  lemma ReplayedExactly(scripts: Scripts, makes: map<string, seq<Group>>, line: seq<string>, steps: int, db: Db)
    requires Linear(scripts, line) && 1 <= steps && 1 < |line|
    requires Scripted(scripts, makes, line[..Walked(line, steps)])
    requires AllTidy(Joint(makes, line[..Walked(line, steps)]))
    ensures var groups := Joint(makes, line[..Walked(line, steps)]);
      var end := EndOf(scripts, line, steps, db);
      !end.verdict.DowngradeFailed? && !end.verdict.UpgradeFailed? ==>
        && (end.verdict == Replayed <==> AllSeenAtHead(groups, db))
        && (SameSchema(end.tables, db) <==> AllMet(groups, db))
  {
    var chain := line[..Walked(line, steps)];
    var groups := Joint(makes, chain);
    ChainIsJoint(scripts, makes, chain);
    var down := ExecuteAll(Downgrade(groups), db);
    if down.Done? && ExecuteAll(Upgrade(groups), down.value).Done? {
      RevisionSeenExactly(groups, db, down.value);
      ComparedExactly(db, ExecuteAll(Upgrade(groups), down.value).value);
    }
  }

  /** The same for the newest revision alone. */
  lemma NewestReplayedExactly(scripts: Scripts, line: seq<string>, groups: seq<Group>, db: Db)
    requires Linear(scripts, line) && 1 < |line| && Makes(scripts[line[0]], groups) && AllTidy(groups)
    ensures var end := EndOf(scripts, line, 1, db);
      !end.verdict.DowngradeFailed? && !end.verdict.UpgradeFailed? ==>
        && (end.verdict == Replayed <==> AllSeenAtHead(groups, db))
        && (SameSchema(end.tables, db) <==> AllMet(groups, db))
  {
    var makes := map[line[0] := groups];
    assert line[..1] == [line[0]] && [line[0]][1..] == [];
    assert Joint(makes, line[..1]) == Joint(makes, []) + groups;
    assert Joint(makes, line[..1]) == groups;
    ReplayedExactly(scripts, makes, line, 1, db);
  }

  // ---- tables that are created ----

  /** The table has the columns and constraints of the new one and exactly the created indexes. */
  ghost predicate AsCreated(bare: Table, changes: seq<Change>, t: Table) {
    && t.columns == bare.columns && t.constraints == bare.constraints
    && t.indexes.Keys == CreatedIn(changes) && AllInPlace(changes, t)
  }

  /** It looks like that in a snapshot. */
  ghost predicate LooksCreated(bare: Table, changes: seq<Change>, t: Table) {
    SameColumnsSeen(bare, t) && IndexNames(t) == CreatedIn(changes) + UniqueNames(bare)
  }

  ghost predicate OnlyIndexes(changes: seq<Change>) {
    forall i :: 0 <= i < |changes| ==> changes[i].AddedIndex?
  }

  lemma LastIndex(changes: seq<Change>, t: Table) returns (t1: Table)
    requires changes != [] && OnlyIndexes(changes) && ApplyAll(Ups(changes), t).Done?
    ensures var front, last := changes[..|changes| - 1], changes[|changes| - 1];
      && ApplyAll(Ups(front), t) == Done(t1) && last.name !in t1.indexes
      && ApplyAll(Ups(changes), t) == Done(t1.(indexes := t1.indexes[last.name := last.index]))
  {
    var front, last := changes[..|changes| - 1], changes[|changes| - 1];
    LastMade(changes, t);
    t1 := ApplyAll(Ups(front), t).value;
    Unroll(last, t1);
  }

  lemma {:induction false} IndexesMade(bare: Table, changes: seq<Change>)
    requires OnlyIndexes(changes) && bare.indexes == map[] && ApplyAll(Ups(changes), bare).Done?
    ensures AsCreated(bare, changes, ApplyAll(Ups(changes), bare).value)
    decreases |changes|
  {
    if changes != [] {
      var t1 := LastIndex(changes, bare);
      IndexesMade(bare, changes[..|changes| - 1]);
      OneMoreIndex(bare, changes, t1);
    }
  }

  lemma OneMoreIndex(bare: Table, changes: seq<Change>, t1: Table)
    requires changes != [] && OnlyIndexes(changes) && AsCreated(bare, changes[..|changes| - 1], t1)
    requires changes[|changes| - 1].name !in t1.indexes
    ensures var last := changes[|changes| - 1]; AsCreated(bare, changes, t1.(indexes := t1.indexes[last.name := last.index]))
  {
    var front, last := changes[..|changes| - 1], changes[|changes| - 1];
    forall i | 0 <= i < |changes| ensures InPlace(changes[i], t1.(indexes := t1.indexes[last.name := last.index])) {
      if i < |changes| - 1 { assert changes[i] == front[i] && InPlace(front[i], t1); }
    }
  }

  /** Two tables as created have the same schema. */
  lemma CreatedOnce(bare: Table, changes: seq<Change>, t: Table, u: Table)
    requires OnlyIndexes(changes) && AsCreated(bare, changes, t) && AsCreated(bare, changes, u)
    ensures SchemaOf(t) == SchemaOf(u)
  {
    forall n | n in t.indexes ensures t.indexes[n] == u.indexes[n] {
      CreatedAt(changes, n);
      var i :| 0 <= i < |changes| && n in CreatedBy(changes[i]);
      assert InPlace(changes[i], t) && InPlace(changes[i], u);
    }
    assert t.indexes == u.indexes;
  }

  lemma CreatedSchema(bare: Table, changes: seq<Change>, t: Table)
    ensures AsCreated(bare, changes, SchemaOf(t)) <==> AsCreated(bare, changes, t)
  {
    forall i | 0 <= i < |changes| ensures InPlace(changes[i], SchemaOf(t)) <==> InPlace(changes[i], t) {}
  }

  lemma CreatedLooks(bare: Table, changes: seq<Change>, made: Table, t: Table)
    requires AsCreated(bare, changes, made)
    ensures Viewed(made) == Viewed(t) <==> LooksCreated(bare, changes, t)
  {
    ViewsAgree(made, t);
    assert UniqueNames(made) == UniqueNames(bare);
    assert IndexNames(made) == CreatedIn(changes) + UniqueNames(bare);
  }

  /** What a table must be at head that is created with indexes only. */
  lemma CreatedExactly(bare: Table, changes: seq<Change>, t: Table)
    requires OnlyIndexes(changes) && bare.indexes == map[] && ApplyAll(Ups(changes), bare).Done?
    ensures SchemaOf(ApplyAll(Ups(changes), bare).value) == SchemaOf(t) <==> AsCreated(bare, changes, t)
    ensures Viewed(ApplyAll(Ups(changes), bare).value) == Viewed(t) <==> LooksCreated(bare, changes, t)
  {
    IndexesMade(bare, changes);
    var made := ApplyAll(Ups(changes), bare).value;
    if AsCreated(bare, changes, t) { CreatedOnce(bare, changes, made, t); }
    CreatedSchema(bare, changes, made);
    CreatedSchema(bare, changes, t);
    CreatedLooks(bare, changes, made, t);
  }

  // ---- groups over distinct tables ----

  lemma {:induction false} OwnCreated(groups: seq<Group>, i: nat)
    requires DistinctTables(groups) && i < |groups|
    ensures groups[i].table in Created(groups) <==> groups[i].Create?
    ensures groups[i].Create? ==> FreshOf(groups, groups[i].table) == Fresh(groups[i])
  {
    var front := groups[..|groups| - 1];
    if i == |groups| - 1 {
      assert forall j :: 0 <= j < |front| ==> front[j].table != groups[i].table;
      NotCreated(front, groups[i].table);
    } else {
      assert forall j, k :: 0 <= j < k < |front| ==> front[j].table != front[k].table;
      OwnCreated(front, i);
      assert groups[i].table != groups[|groups| - 1].table;
    }
  }

  lemma {:induction false} NotCreated(groups: seq<Group>, table: TableName)
    requires forall j :: 0 <= j < |groups| ==> groups[j].table != table
    ensures table !in Created(groups)
  {
    if groups != [] { NotCreated(groups[..|groups| - 1], table); }
  }

  /** The table is what the group's downgrade expects. */
  ghost predicate GroupMet(g: Group, t: Table) {
    match g
    case Alter(_, changes) => AllPost(changes, t)
    case Create(_, _, _, changes) => AsCreated(Fresh(g), changes, t)
  }

  ghost predicate GroupSeen(g: Group, t: Table) {
    match g
    case Alter(_, changes) => AllSeen(changes, t)
    case Create(_, _, _, changes) => LooksCreated(Fresh(g), changes, t)
  }

  ghost predicate Met(g: Group, db: Db) {
    g.table in db && GroupMet(g, db[g.table])
  }

  ghost predicate Seen(g: Group, db: Db) {
    g.table in db && GroupSeen(g, db[g.table])
  }

  /** A group that alters its table by tidy changes, or creates it with indexes only. */
  ghost predicate Plain(g: Group) {
    match g
    case Alter(_, changes) => Tidy(changes)
    case Create(_, _, _, changes) => OnlyIndexes(changes) && ApplyAll(Ups(changes), Fresh(g)).Done?
  }

  lemma OneGroupMet(groups: seq<Group>, i: nat, db: Db)
    requires DistinctTables(groups) && i < |groups| && Plain(groups[i]) && groups[i].table in db
    ensures MetAt(groups, db, groups[i].table) <==> GroupMet(groups[i], db[groups[i].table])
    ensures SeenAtHead(groups, db, groups[i].table) <==> GroupSeen(groups[i], db[groups[i].table])
  {
    OwnChanges(groups, i);
    OwnCreated(groups, i);
    if groups[i].Create? { CreatedExactly(Fresh(groups[i]), groups[i].changes, db[groups[i].table]); }
  }

  lemma OtherTableMet(groups: seq<Group>, db: Db, table: TableName)
    requires table in db && forall i :: 0 <= i < |groups| ==> groups[i].table != table
    ensures MetAt(groups, db, table) && SeenAtHead(groups, db, table)
  {
    NotTheirs(groups, table);
    NotCreated(groups, table);
  }

  /** For groups over distinct tables the expectations can be read off group by group. */
  lemma MetByGroup(groups: seq<Group>, db: Db)
    requires DistinctTables(groups) && forall i :: 0 <= i < |groups| ==> Plain(groups[i]) && groups[i].table in db
    ensures AllTidy(groups)
    ensures AllMet(groups, db) <==> forall i :: 0 <= i < |groups| ==> Met(groups[i], db)
    ensures AllSeenAtHead(groups, db) <==> forall i :: 0 <= i < |groups| ==> Seen(groups[i], db)
  {
    forall i | 0 <= i < |groups|
      ensures MetAt(groups, db, groups[i].table) <==> Met(groups[i], db)
      ensures SeenAtHead(groups, db, groups[i].table) <==> Seen(groups[i], db)
    {
      OneGroupMet(groups, i, db);
    }
    forall table | table in db && forall i :: 0 <= i < |groups| ==> groups[i].table != table
      ensures MetAt(groups, db, table) && SeenAtHead(groups, db, table)
    {
      OtherTableMet(groups, db, table);
    }
    PlainTidy(groups);
  }

  lemma PlainTidy(groups: seq<Group>)
    requires DistinctTables(groups) && forall i :: 0 <= i < |groups| ==> Plain(groups[i])
    ensures AllTidy(groups)
  {
    forall table | table !in Created(groups) ensures Tidy(ChangesOf(groups, table)) {
      if i :| 0 <= i < |groups| && groups[i].table == table {
        OwnChanges(groups, i);
        OwnCreated(groups, i);
      } else {
        NotTheirs(groups, table);
        assert Separate([]);
      }
    }
  }
}
