/** Revision 1b2c3d4e5f6a: idempotency keys for freelance orders, and three new tables. */
module IdempotencyRevision {
  import opened Options
  import opened Schema
  import opened Changes
  import opened Databases
  import opened Revisions
  import opened Independence

  const KEY := "idempotency_key"

  /** Unique among the rows that have a key. */
  const KEYED := Index([KEY], true, Some(KEY))

  function Required(typ: string): Column {
    Column(typ, false, None)
  }

  function Optional(typ: string): Column {
    Column(typ, true, None)
  }

  function Added(name: string, column: string): Change {
    AddedIndex(name, PlainIndex([column]))
  }

  const ORDER_KEY := Optional("VARCHAR(255)")
  const ORDER_INDEX := "ux_freelance_orders_idempotency_key"

  const ORDERS := Alter(FreelanceOrders, [AddedColumn(KEY, ORDER_KEY), AddedIndex(ORDER_INDEX, KEYED)])

  const ORDER_REF := ForeignKey(["order_id"], FreelanceOrders, ["id"], "CASCADE")
  const USER_REF := ForeignKey(["user_id"], Users, ["id"], "")

  /** The constraints of a table of payments or refunds, by their names. */
  function Keys(order: string, user: string, primary: string): map<string, Constraint> {
    map[order := ORDER_REF, user := USER_REF, primary := PrimaryKey(["id"])]
  }

  const PAYMENT_COLUMNS := map[
    "id" := Required("INTEGER"), "order_id" := Required("INTEGER"),
    "stripe_payment_intent_id" := Optional("VARCHAR"), "stripe_payment_link_id" := Optional("VARCHAR"),
    "status" := Required("VARCHAR"), "confirmed_at" := Optional("TIMESTAMP"), KEY := Required("VARCHAR(255)"),
    "user_id" := Optional("UUID"), "created_at" := Optional("TIMESTAMP"), "updated_at" := Optional("TIMESTAMP")
  ]

  const PAYMENT_CONSTRAINTS: map<string, Constraint> :=
    Keys("freelance_payment_records_order_id_fkey", "freelance_payment_records_user_id_fkey",
         "freelance_payment_records_pkey")

  const PAYMENT_INDEXES := [
    Added("ix_freelance_payment_records_id", "id"),
    Added("ix_freelance_payment_records_order_id", "order_id"),
    Added("ix_freelance_payment_records_stripe_payment_intent_id", "stripe_payment_intent_id"),
    Added("ix_freelance_payment_records_stripe_payment_link_id", "stripe_payment_link_id"),
    Added("ix_freelance_payment_records_user_id", "user_id"),
    AddedIndex("ux_freelance_payment_records_idempotency_key", KEYED)
  ]

  const PAYMENTS := Create(FreelancePaymentRecords, PAYMENT_COLUMNS, PAYMENT_CONSTRAINTS, PAYMENT_INDEXES)

  const REFUND_COLUMNS := map[
    "id" := Required("INTEGER"), "order_id" := Required("INTEGER"),
    "stripe_payment_intent_id" := Optional("VARCHAR"), "stripe_refund_id" := Optional("VARCHAR"),
    "reason" := Optional("VARCHAR"), "amount_cents" := Optional("INTEGER"), "status" := Required("VARCHAR"),
    "processed_at" := Optional("TIMESTAMP"), KEY := Required("VARCHAR(255)"), "user_id" := Optional("UUID"),
    "created_at" := Optional("TIMESTAMP"), "updated_at" := Optional("TIMESTAMP")
  ]

  const REFUND_CONSTRAINTS: map<string, Constraint> :=
    Keys("freelance_refund_records_order_id_fkey", "freelance_refund_records_user_id_fkey",
         "freelance_refund_records_pkey")

  const REFUND_INDEXES := [
    Added("ix_freelance_refund_records_id", "id"),
    Added("ix_freelance_refund_records_order_id", "order_id"),
    Added("ix_freelance_refund_records_stripe_payment_intent_id", "stripe_payment_intent_id"),
    Added("ix_freelance_refund_records_stripe_refund_id", "stripe_refund_id"),
    Added("ix_freelance_refund_records_user_id", "user_id"),
    AddedIndex("ux_freelance_refund_records_idempotency_key", KEYED)
  ]

  const REFUNDS := Create(FreelanceRefundRecords, REFUND_COLUMNS, REFUND_CONSTRAINTS, REFUND_INDEXES)

  const WEBHOOK_COLUMNS := map[
    "id" := Required("INTEGER"), "event_type" := Optional("VARCHAR(100)"), KEY := Required("VARCHAR(255)"),
    "payload" := Optional("JSON"), "processing_status" := Required("VARCHAR"),
    "processed_at" := Optional("TIMESTAMP"), "created_at" := Optional("TIMESTAMP"), "updated_at" := Optional("TIMESTAMP")
  ]

  const WEBHOOK_CONSTRAINTS: map<string, Constraint> := map["freelance_webhook_events_pkey" := PrimaryKey(["id"])]

  const WEBHOOK_INDEXES := [
    Added("ix_freelance_webhook_events_id", "id"),
    AddedIndex("ux_freelance_webhook_events_idempotency_key", KEYED)
  ]

  const WEBHOOKS := Create(FreelanceWebhookEvents, WEBHOOK_COLUMNS, WEBHOOK_CONSTRAINTS, WEBHOOK_INDEXES)

  const CREATES: seq<Group> := [PAYMENTS, REFUNDS, WEBHOOKS]

  const IDEMPOTENCY: seq<Group> := [ORDERS] + CREATES

  /** The new indexes are over columns of the new table. */
  ghost predicate OverColumns(changes: seq<Change>, columns: map<string, Column>) {
    forall i :: 0 <= i < |changes| ==> changes[i].AddedIndex? && IndexColumns(changes[i].index) <= columns.Keys
  }

  lemma PaymentsCreatable()
    ensures Creatable(PAYMENTS)
  {
    PaymentIndexesSeparate();
    PaymentIndexesPlaced();
  }

  lemma PaymentIndexesSeparate()
    ensures Separate(PAYMENT_INDEXES)
  {}

  lemma PaymentIndexesPlaced()
    ensures OverColumns(PAYMENT_INDEXES, PAYMENT_COLUMNS) && Declarable(PAYMENT_COLUMNS, PAYMENT_CONSTRAINTS)
  {}

  lemma RefundsCreatable()
    ensures Creatable(REFUNDS)
  {
    RefundIndexesSeparate();
    RefundIndexesPlaced();
  }

  lemma RefundIndexesSeparate()
    ensures Separate(REFUND_INDEXES)
  {}

  lemma RefundIndexesPlaced()
    ensures OverColumns(REFUND_INDEXES, REFUND_COLUMNS) && Declarable(REFUND_COLUMNS, REFUND_CONSTRAINTS)
  {}

  lemma WebhooksCreatable()
    ensures Creatable(WEBHOOKS)
  {}

  lemma AllCreatable()
    ensures DistinctTables(CREATES) && forall i :: 0 <= i < |CREATES| ==> Creatable(CREATES[i])
  {
    PaymentsCreatable();
    RefundsCreatable();
    WebhooksCreatable();
  }

  /** What payments and refunds refer to. */
  predicate ReferredThere(db: Db) {
    FreelanceOrders in db && "id" in db[FreelanceOrders].columns && Users in db && "id" in db[Users].columns
  }

  /** The orders can take the key, what the new tables refer to is there, and none of them
      exists. */
  predicate AsExpected(db: Db) {
    && FreelanceOrders in db && KEY !in db[FreelanceOrders].columns && ORDER_INDEX !in db[FreelanceOrders].indexes
    && ReferredThere(db)
    && FreelancePaymentRecords !in db && FreelanceRefundRecords !in db && FreelanceWebhookEvents !in db
  }

  lemma KeyedHolds(rows: seq<Row>)
    requires forall i :: 0 <= i < |rows| ==> Cell(rows[i], KEY) == Null
    ensures IndexHolds(KEYED, rows)
  {
    assert forall i :: 0 <= i < |rows| ==> !Covers(KEYED, rows[i]);
  }

  /** A partial unique index over a column that is NULL everywhere never fails. */
  lemma OrdersRun(t: Table)
    ensures ApplyAll(Ups(ORDERS.changes), t).Done? <==> KEY !in t.columns && ORDER_INDEX !in t.indexes
    ensures KEY !in t.columns && ORDER_INDEX !in t.indexes ==> PreAll(ORDERS.changes, t)
  {
    var index := ORDERS.changes[1];
    OrderSteps();
    ApplyTwo(AddColumn(KEY, ORDER_KEY), CreateIndex(ORDER_INDEX, KEYED), t);
    ApplyOne(AddColumn(KEY, ORDER_KEY), t);
    if KEY !in t.columns {
      var t1 := Apply(AddColumn(KEY, ORDER_KEY), t).value;
      KeyedHolds(t1.rows);
      assert ORDERS.changes[1..] == [index] && [index][1..] == [];
    }
  }

  lemma OrderSteps()
    ensures Ups(ORDERS.changes) == [AddColumn(KEY, ORDER_KEY), CreateIndex(ORDER_INDEX, KEYED)]
  {
    var add, index := ORDERS.changes[0], ORDERS.changes[1];
    assert ORDERS.changes[1..] == [index] && [index][1..] == [];
    assert Ups([index]) == Up(index) + [];
    assert Ups(ORDERS.changes) == Up(add) + Ups([index]);
  }

  /** The upgrade runs exactly on the databases it expects, whatever their rows. */
  lemma IdempotencyRunsExactly(db: Db)
    ensures ExecuteAll(Upgrade(IDEMPOTENCY), db).Done? <==> AsExpected(db)
  {
    assert IDEMPOTENCY[1..] == CREATES;
    ExecuteSplit(GroupUp(ORDERS), Upgrade(CREATES), db);
    if FreelanceOrders in db {
      AlterRuns(ORDERS, db);
      OrdersRun(db[FreelanceOrders]);
      if ExecuteAll(GroupUp(ORDERS), db).Done? {
        OrdersKeepId(db[FreelanceOrders]);
        CreatesRun(ExecuteAll(GroupUp(ORDERS), db).value);
      }
    } else {
      OrdersMissing(db);
    }
  }

  lemma OrdersMissing(db: Db)
    requires FreelanceOrders !in db
    ensures ExecuteAll(GroupUp(ORDERS), db).Failed?
  {
    OrderSteps();
    assert GroupUp(ORDERS)[0] == On(FreelanceOrders, AddColumn(KEY, ORDER_KEY));
  }

  lemma OrdersKeepId(t: Table)
    requires ApplyAll(Ups(ORDERS.changes), t).Done?
    ensures "id" in ApplyAll(Ups(ORDERS.changes), t).value.columns <==> "id" in t.columns
  {
    OrderSteps();
    ApplyTwo(AddColumn(KEY, ORDER_KEY), CreateIndex(ORDER_INDEX, KEYED), t);
    assert |"id"| != |KEY|;
  }

  lemma CreatesTables()
    ensures |CREATES| == 3 && CREATES[0].table == FreelancePaymentRecords
    ensures CREATES[1].table == FreelanceRefundRecords && CREATES[2].table == FreelanceWebhookEvents
  {}

  lemma OneOffered(fk: Constraint, db: Db, groups: seq<Group>)
    requires fk.ForeignKey? && |fk.columns| == 1 && fk.refColumns == ["id"]
    requires forall i :: 0 <= i < |groups| ==> groups[i].table != fk.refTable
    ensures Offered(fk, db, groups) <==> fk.refTable in db && "id" in db[fk.refTable].columns
  {
    assert fk.refColumns[0] == "id";
  }

  lemma KeysOffered(order: string, user: string, primary: string, db: Db, groups: seq<Group>)
    requires |order| > |user| > |primary|
    requires forall i :: 0 <= i < |groups| ==> groups[i].table != FreelanceOrders && groups[i].table != Users
    ensures var keys := Keys(order, user, primary);
      (forall n :: n in keys && keys[n].ForeignKey? ==> Offered(keys[n], db, groups)) <==> ReferredThere(db)
  {
    var keys := Keys(order, user, primary);
    OneOffered(ORDER_REF, db, groups);
    OneOffered(USER_REF, db, groups);
    assert keys[order] == ORDER_REF && keys[user] == USER_REF && keys[primary].PrimaryKey?;
    assert forall n :: n in keys ==> n == order || n == user || n == primary;
  }

  lemma PaymentsDue(db: Db)
    ensures |CREATES| == 3 && (Due(CREATES, 0, db) <==> FreelancePaymentRecords !in db && ReferredThere(db))
  {
    KeysOffered("freelance_payment_records_order_id_fkey", "freelance_payment_records_user_id_fkey",
                "freelance_payment_records_pkey", db, CREATES[..1]);
  }

  lemma RefundsDue(db: Db)
    ensures |CREATES| == 3 && (Due(CREATES, 1, db) <==> FreelanceRefundRecords !in db && ReferredThere(db))
  {
    KeysOffered("freelance_refund_records_order_id_fkey", "freelance_refund_records_user_id_fkey",
                "freelance_refund_records_pkey", db, CREATES[..2]);
  }

  lemma CreatesRun(db: Db)
    ensures ExecuteAll(Upgrade(CREATES), db).Done? <==>
      FreelancePaymentRecords !in db && FreelanceRefundRecords !in db && FreelanceWebhookEvents !in db && ReferredThere(db)
  {
    AllCreatable();
    CreatesRunExactly(CREATES, db);
    PaymentsDue(db);
    RefundsDue(db);
    WebhooksDue(db);
    AllThree(CREATES, db);
  }

  lemma WebhooksDue(db: Db)
    ensures |CREATES| == 3 && (Due(CREATES, 2, db) <==> FreelanceWebhookEvents !in db)
  {}

  lemma AllThree(groups: seq<Group>, db: Db)
    requires |groups| == 3
    ensures AllDue(groups, db) <==> Due(groups, 0, db) && Due(groups, 1, db) && Due(groups, 2, db)
  {}

  /** The downgrade gives back the very database the upgrade found. */
  lemma IdempotencyUndone(db: Db)
    requires Sound(db) && ExecuteAll(Upgrade(IDEMPOTENCY), db).Done?
    ensures RevisionPre(IDEMPOTENCY, db)
    ensures ExecuteAll(Downgrade(IDEMPOTENCY), ExecuteAll(Upgrade(IDEMPOTENCY), db).value) == Done(db)
  {
    IdempotencyRunsExactly(db);
    OrdersRun(db[FreelanceOrders]);
    AllCreatable();
    PaymentsAndRest(db);
    PreFromStart(IDEMPOTENCY, db);
    RevisionUndone(IDEMPOTENCY, db);
  }

  lemma PaymentsAndRest(db: Db)
    requires AsExpected(db) && PreAll(ORDERS.changes, db[FreelanceOrders])
    ensures DistinctTables(IDEMPOTENCY) && AllPre(IDEMPOTENCY, db)
  {
    AllCreatable();
    forall i | 0 <= i < |CREATES| ensures GroupPre(CREATES[i], db) {
      CreateRuns(CREATES[i], db);
    }
  }
}
