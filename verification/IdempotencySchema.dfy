/** What revision 1b2c3d4e5f6a makes of the database and what its downgrade does, spelled
    out name by name. */
module IdempotencySchema {
  import opened Options
  import opened Schema
  import opened Changes
  import opened Databases
  import opened Revisions
  import opened Independence
  import opened ReplayDamage
  import opened IdempotencyRevision

  // ---- the new tables ----

  /** An index over one column that is not unique. */
  function Over(column: string): Index {
    Index([column], false, None)
  }

  /** Unique among the rows that have a key. */
  function UniqueKey(): Index {
    Index(["idempotency_key"], true, Some("idempotency_key"))
  }

  function Of(typ: string, nullable: bool): Column {
    Column(typ, nullable, None)
  }

  function Payments(): Table {
    Table(
      map["id" := Of("INTEGER", false), "order_id" := Of("INTEGER", false),
          "stripe_payment_intent_id" := Of("VARCHAR", true), "stripe_payment_link_id" := Of("VARCHAR", true),
          "status" := Of("VARCHAR", false), "confirmed_at" := Of("TIMESTAMP", true),
          "idempotency_key" := Of("VARCHAR(255)", false), "user_id" := Of("UUID", true),
          "created_at" := Of("TIMESTAMP", true), "updated_at" := Of("TIMESTAMP", true)],
      map["ix_freelance_payment_records_id" := Over("id"),
          "ix_freelance_payment_records_order_id" := Over("order_id"),
          "ix_freelance_payment_records_stripe_payment_intent_id" := Over("stripe_payment_intent_id"),
          "ix_freelance_payment_records_stripe_payment_link_id" := Over("stripe_payment_link_id"),
          "ix_freelance_payment_records_user_id" := Over("user_id"),
          "ux_freelance_payment_records_idempotency_key" := UniqueKey()],
      map["freelance_payment_records_order_id_fkey" := ForeignKey(["order_id"], FreelanceOrders, ["id"], "CASCADE"),
          "freelance_payment_records_user_id_fkey" := ForeignKey(["user_id"], Users, ["id"], ""),
          "freelance_payment_records_pkey" := PrimaryKey(["id"])],
      [])
  }

  function Refunds(): Table {
    Table(
      map["id" := Of("INTEGER", false), "order_id" := Of("INTEGER", false),
          "stripe_payment_intent_id" := Of("VARCHAR", true), "stripe_refund_id" := Of("VARCHAR", true),
          "reason" := Of("VARCHAR", true), "amount_cents" := Of("INTEGER", true), "status" := Of("VARCHAR", false),
          "processed_at" := Of("TIMESTAMP", true), "idempotency_key" := Of("VARCHAR(255)", false),
          "user_id" := Of("UUID", true), "created_at" := Of("TIMESTAMP", true), "updated_at" := Of("TIMESTAMP", true)],
      map["ix_freelance_refund_records_id" := Over("id"),
          "ix_freelance_refund_records_order_id" := Over("order_id"),
          "ix_freelance_refund_records_stripe_payment_intent_id" := Over("stripe_payment_intent_id"),
          "ix_freelance_refund_records_stripe_refund_id" := Over("stripe_refund_id"),
          "ix_freelance_refund_records_user_id" := Over("user_id"),
          "ux_freelance_refund_records_idempotency_key" := UniqueKey()],
      map["freelance_refund_records_order_id_fkey" := ForeignKey(["order_id"], FreelanceOrders, ["id"], "CASCADE"),
          "freelance_refund_records_user_id_fkey" := ForeignKey(["user_id"], Users, ["id"], ""),
          "freelance_refund_records_pkey" := PrimaryKey(["id"])],
      [])
  }

  function Webhooks(): Table {
    Table(
      map["id" := Of("INTEGER", false), "event_type" := Of("VARCHAR(100)", true),
          "idempotency_key" := Of("VARCHAR(255)", false), "payload" := Of("JSON", true),
          "processing_status" := Of("VARCHAR", false), "processed_at" := Of("TIMESTAMP", true),
          "created_at" := Of("TIMESTAMP", true), "updated_at" := Of("TIMESTAMP", true)],
      map["ix_freelance_webhook_events_id" := Over("id"),
          "ux_freelance_webhook_events_idempotency_key" := UniqueKey()],
      map["freelance_webhook_events_pkey" := PrimaryKey(["id"])],
      [])
  }

  /** The orders, none of which has a key yet. */
  function KeyedOrders(t: Table): Table {
    Table(
      t.columns["idempotency_key" := Of("VARCHAR(255)", true)],
      t.indexes["ux_freelance_orders_idempotency_key" := UniqueKey()],
      t.constraints,
      seq(|t.rows|, i requires 0 <= i < |t.rows| => t.rows[i]["idempotency_key" := Null]))
  }

  /** The orders without keys, and without what is over the keys. */
  function UnkeyedOrders(t: Table): Table {
    Table(
      t.columns - {"idempotency_key"},
      map n | n in t.indexes && n != "ux_freelance_orders_idempotency_key" && "idempotency_key" !in t.indexes[n].columns
              && t.indexes[n].onlyNonNull != Some("idempotency_key") :: t.indexes[n],
      map n | n in t.constraints && "idempotency_key" !in t.constraints[n].columns :: t.constraints[n],
      seq(|t.rows|, i requires 0 <= i < |t.rows| => t.rows[i] - {"idempotency_key"}))
  }

  // ---- a table and its indexes ----

  lemma {:induction false} IndexesKeep(changes: seq<Change>)
    requires OnlyIndexes(changes)
    ensures forall i :: 0 <= i < |changes| ==> KeepsColumns(changes[i])
  {}

  lemma ThreeIndexes(b: Change, c: Change, d: Change, t: Table)
    requires b.AddedIndex? && c.AddedIndex? && d.AddedIndex?
    ensures TurnedAll([b, c, d], true, t) == t.(indexes := t.indexes[b.name := b.index][c.name := c.index][d.name := d.index])
  {
    assert [b, c, d] == [b] + [c, d];
    TurnedFirst(b, [c, d], true, t);
    TurnedTwo(c, d, true, Turned(b, true, t));
  }

  lemma SixIndexes(changes: seq<Change>, t: Table)
    requires |changes| == 6 && OnlyIndexes(changes) && t.indexes == map[]
    ensures TurnedAll(changes, true, t) == t.(indexes :=
      map[changes[0].name := changes[0].index, changes[1].name := changes[1].index, changes[2].name := changes[2].index,
          changes[3].name := changes[3].index, changes[4].name := changes[4].index, changes[5].name := changes[5].index])
  {
    var xs, ys := [changes[0], changes[1], changes[2]], [changes[3], changes[4], changes[5]];
    assert changes == xs + ys;
    TurnedJoin(xs, ys, true, t);
    ThreeIndexes(xs[0], xs[1], xs[2], t);
    ThreeIndexes(ys[0], ys[1], ys[2], TurnedAll(xs, true, t));
  }

  /** A created table with its indexes, if they could be made. */
  function Whole(g: Group): Table
    requires g.Create?
  {
    TurnedAll(g.changes, true, Fresh(g))
  }

  lemma PaymentsWhole()
    ensures Whole(PAYMENTS) == Payments()
  {
    SixIndexes(PAYMENT_INDEXES, Fresh(PAYMENTS));
  }

  lemma RefundsWhole()
    ensures Whole(REFUNDS) == Refunds()
  {
    SixIndexes(REFUND_INDEXES, Fresh(REFUNDS));
  }

  lemma WebhooksWhole()
    ensures Whole(WEBHOOKS) == Webhooks()
  {
    TurnedTwo(WEBHOOK_INDEXES[0], WEBHOOK_INDEXES[1], true, Fresh(WEBHOOKS));
  }

  // ---- the orders ----

  lemma OrdersTurned(t: Table)
    requires ApplyAll(Ups(ORDERS.changes), t).Done?
    ensures ApplyAll(Ups(ORDERS.changes), t) == Done(KeyedOrders(t))
  {
    OrderSteps();
    ApplyTwo(AddColumn(KEY, ORDER_KEY), CreateIndex(ORDER_INDEX, KEYED), t);
    assert SetCells(t.rows, KEY, Null) == KeyedOrders(t).rows;
  }

  lemma OrderStepsBack()
    ensures Downs(ORDERS.changes) == [DropIndex(ORDER_INDEX), DropColumn(KEY)]
  {
    var add, index := ORDERS.changes[0], ORDERS.changes[1];
    assert ORDERS.changes[1..] == [index];
    Alone(index);
    assert Downs(ORDERS.changes) == Downs([index]) + Down(add);
  }

  lemma OrdersTurnedBack(t: Table)
    requires ApplyAll(Downs(ORDERS.changes), t).Done?
    ensures ORDER_INDEX in t.indexes && KEY in t.columns
    ensures ApplyAll(Downs(ORDERS.changes), t) == Done(UnkeyedOrders(t))
  {
    OrderStepsBack();
    ApplyTwo(DropIndex(ORDER_INDEX), DropColumn(KEY), t);
    UnkeyedIs(t);
  }

  lemma UnkeyedIs(t: Table)
    ensures var bare := t.(indexes := t.indexes - {ORDER_INDEX});
      UnkeyedOrders(t) == Table(bare.columns - {KEY}, IndexesWithout(bare, KEY), ConstraintsWithout(bare, KEY), DropCells(t.rows, KEY))
  {
    DropsWith(t, ORDER_INDEX, KEY);
    assert DropCells(t.rows, KEY) == UnkeyedOrders(t).rows;
  }

  // ---- the revision ----

  lemma IdempotencyTables()
    ensures |IDEMPOTENCY| == 4 && DistinctTables(IDEMPOTENCY)
    ensures IDEMPOTENCY[0] == ORDERS && IDEMPOTENCY[1] == PAYMENTS && IDEMPOTENCY[2] == REFUNDS && IDEMPOTENCY[3] == WEBHOOKS
  {}

  /** What the groups have to do with the table. */
  lemma OrdersChanges()
    ensures ChangesOf(IDEMPOTENCY, FreelanceOrders) == ORDERS.changes && FreelanceOrders !in Created(IDEMPOTENCY)
  {
    IdempotencyTables();
    OwnChanges(IDEMPOTENCY, 0);
    OwnCreated(IDEMPOTENCY, 0);
  }

  lemma OnlyIndexesMade()
    ensures OnlyIndexes(PAYMENT_INDEXES) && OnlyIndexes(REFUND_INDEXES) && OnlyIndexes(WEBHOOK_INDEXES)
  {}

  lemma NewTable(i: nat)
    requires 1 <= i < 4
    ensures |IDEMPOTENCY| == 4 && IDEMPOTENCY[i].Create? && OnlyIndexes(IDEMPOTENCY[i].changes)
    ensures var g := IDEMPOTENCY[i];
      && ChangesOf(IDEMPOTENCY, g.table) == g.changes && g.table in Created(IDEMPOTENCY)
      && FreshOf(IDEMPOTENCY, g.table) == Fresh(g)
  {
    IdempotencyTables();
    OnlyIndexesMade();
    OwnChanges(IDEMPOTENCY, i);
    OwnCreated(IDEMPOTENCY, i);
  }

  /** A new table is created with its indexes, on the way up; it must not have been there. */
  lemma NewTableUp(i: nat, db: Db, after: Db)
    requires 1 <= i < 4 && |IDEMPOTENCY| == 4 && UpAt(IDEMPOTENCY, db, after, IDEMPOTENCY[i].table)
    ensures IDEMPOTENCY[i].Create? && IDEMPOTENCY[i].table !in db
    ensures IDEMPOTENCY[i].table in after && after[IDEMPOTENCY[i].table] == Whole(IDEMPOTENCY[i])
  {
    NewTable(i);
    var g := IDEMPOTENCY[i];
    IndexesKeep(g.changes);
    RanIsTurned(g.changes, true, Fresh(g));
  }

  lemma OtherTable(table: TableName)
    requires table !in TOUCHED
    ensures ChangesOf(IDEMPOTENCY, table) == [] && table !in Created(IDEMPOTENCY)
  {
    IdempotencyTables();
    NotTheirs(IDEMPOTENCY, table);
    NotCreated(IDEMPOTENCY, table);
  }

  /** Wherever the upgrade runs, the orders get the column and its index, the three tables
      are there as spelled out, and nothing else changes. */
  lemma IdempotencyUpgradeExactly(db: Db)
    requires ExecuteAll(Upgrade(IDEMPOTENCY), db).Done?
    ensures FreelanceOrders in db
    ensures FreelancePaymentRecords !in db && FreelanceRefundRecords !in db && FreelanceWebhookEvents !in db
    ensures ExecuteAll(Upgrade(IDEMPOTENCY), db).value ==
      db[FreelanceOrders := KeyedOrders(db[FreelanceOrders])][FreelancePaymentRecords := Payments()]
        [FreelanceRefundRecords := Refunds()][FreelanceWebhookEvents := Webhooks()]
  {
    var after := ExecuteAll(Upgrade(IDEMPOTENCY), db).value;
    UpgradeOnTables(IDEMPOTENCY, db);
    OrdersUp(db, after);
    NewTablesUp(db, after);
    OthersUp(db, after);
    UpPut(db, after, KeyedOrders(db[FreelanceOrders]), Payments(), Refunds(), Webhooks());
  }

  lemma NewTablesUp(db: Db, after: Db)
    requires UpBy(IDEMPOTENCY, db, after)
    ensures FreelancePaymentRecords !in db && FreelanceRefundRecords !in db && FreelanceWebhookEvents !in db
    ensures FreelancePaymentRecords in after && after[FreelancePaymentRecords] == Payments()
    ensures FreelanceRefundRecords in after && after[FreelanceRefundRecords] == Refunds()
    ensures FreelanceWebhookEvents in after && after[FreelanceWebhookEvents] == Webhooks()
  {
    IdempotencyTables();
    NewTableUp(1, db, after);
    NewTableUp(2, db, after);
    NewTableUp(3, db, after);
    PaymentsWhole();
    RefundsWhole();
    WebhooksWhole();
  }

  lemma UpPut(db: Db, after: Db, orders: Table, payments: Table, refunds: Table, webhooks: Table)
    requires FreelanceOrders in after && after[FreelanceOrders] == orders
    requires FreelancePaymentRecords in after && after[FreelancePaymentRecords] == payments
    requires FreelanceRefundRecords in after && after[FreelanceRefundRecords] == refunds
    requires FreelanceWebhookEvents in after && after[FreelanceWebhookEvents] == webhooks
    requires OthersKept(db, after)
    ensures after == db[FreelanceOrders := orders][FreelancePaymentRecords := payments]
                       [FreelanceRefundRecords := refunds][FreelanceWebhookEvents := webhooks]
  {
    var built := db[FreelanceOrders := orders][FreelancePaymentRecords := payments]
                   [FreelanceRefundRecords := refunds][FreelanceWebhookEvents := webhooks];
    forall table ensures (table in after <==> table in built) && (table in after ==> after[table] == built[table]) {
      assert table !in TOUCHED ==> KeptAt(db, after, table);
    }
  }

  const TOUCHED := {FreelanceOrders, FreelancePaymentRecords, FreelanceRefundRecords, FreelanceWebhookEvents}

  ghost predicate KeptAt(db: Db, after: Db, table: TableName) {
    (table in after <==> table in db) && (table in db ==> after[table] == db[table])
  }

  ghost predicate OthersKept(db: Db, after: Db) {
    forall table :: table !in TOUCHED ==> KeptAt(db, after, table)
  }

  lemma OrdersUp(db: Db, after: Db)
    requires UpBy(IDEMPOTENCY, db, after)
    ensures FreelanceOrders in db && FreelanceOrders in after && after[FreelanceOrders] == KeyedOrders(db[FreelanceOrders])
  {
    OrdersChanges();
    assert UpAt(IDEMPOTENCY, db, after, FreelanceOrders);
    OrdersTurned(db[FreelanceOrders]);
  }

  lemma OthersUp(db: Db, after: Db)
    requires UpBy(IDEMPOTENCY, db, after)
    ensures OthersKept(db, after)
  {
    forall table | table !in TOUCHED ensures KeptAt(db, after, table) {
      OtherTable(table);
      assert UpAt(IDEMPOTENCY, db, after, table);
    }
  }

  /** The downgrade drops the three tables with all their rows, takes the column from the
      orders with what is over it, and changes nothing else. */
  lemma IdempotencyDowngradeExactly(db: Db)
    requires ExecuteAll(Downgrade(IDEMPOTENCY), db).Done?
    ensures FreelanceOrders in db
    ensures ExecuteAll(Downgrade(IDEMPOTENCY), db).value ==
      db[FreelanceOrders := UnkeyedOrders(db[FreelanceOrders])]
      - {FreelancePaymentRecords, FreelanceRefundRecords, FreelanceWebhookEvents}
  {
    var after := ExecuteAll(Downgrade(IDEMPOTENCY), db).value;
    DowngradeOnTables(IDEMPOTENCY, db);
    OrdersDown(db, after);
    TablesDown(db, after);
    OthersDown(db, after);
    DownTaken(db, after, UnkeyedOrders(db[FreelanceOrders]));
  }

  lemma DownTaken(db: Db, after: Db, orders: Table)
    requires FreelanceOrders in after && after[FreelanceOrders] == orders
    requires FreelancePaymentRecords !in after && FreelanceRefundRecords !in after && FreelanceWebhookEvents !in after
    requires OthersKept(db, after)
    ensures after == db[FreelanceOrders := orders] - {FreelancePaymentRecords, FreelanceRefundRecords, FreelanceWebhookEvents}
  {
    var left := db[FreelanceOrders := orders] - {FreelancePaymentRecords, FreelanceRefundRecords, FreelanceWebhookEvents};
    forall table ensures (table in after <==> table in left) && (table in after ==> after[table] == left[table]) {
      assert table !in TOUCHED ==> KeptAt(db, after, table);
    }
  }

  lemma OrdersDown(db: Db, after: Db)
    requires ExecuteAll(Downgrade(IDEMPOTENCY), db).Done? && DownBy(IDEMPOTENCY, db, after)
    ensures FreelanceOrders in db && FreelanceOrders in after && after[FreelanceOrders] == UnkeyedOrders(db[FreelanceOrders])
  {
    OrdersChanges();
    IdempotencyTables();
    DownFinds(IDEMPOTENCY, db, 0);
    assert DownAt(IDEMPOTENCY, db, after, FreelanceOrders);
    OrdersTurnedBack(db[FreelanceOrders]);
  }

  lemma TablesDown(db: Db, after: Db)
    requires DownBy(IDEMPOTENCY, db, after)
    ensures FreelancePaymentRecords !in after && FreelanceRefundRecords !in after && FreelanceWebhookEvents !in after
  {
    IdempotencyTables();
    NewTable(1);
    NewTable(2);
    NewTable(3);
    assert DownAt(IDEMPOTENCY, db, after, FreelancePaymentRecords) && DownAt(IDEMPOTENCY, db, after, FreelanceRefundRecords)
        && DownAt(IDEMPOTENCY, db, after, FreelanceWebhookEvents);
  }

  lemma OthersDown(db: Db, after: Db)
    requires DownBy(IDEMPOTENCY, db, after)
    ensures OthersKept(db, after)
  {
    forall table | table !in TOUCHED ensures KeptAt(db, after, table) {
      OtherTable(table);
      assert DownAt(IDEMPOTENCY, db, after, table);
    }
  }
}
