/** Replays of revisions 0a1b2c3d4e5f and 1b2c3d4e5f6a over any database: what the verdict
    depends on, table by table as they are at head. */
module AppReplayVerdict {
  import opened Schema
  import opened Changes
  import opened Databases
  import opened Revisions
  import opened Independence
  import opened ColumnTrips
  import opened Replay
  import opened ReplayCheck
  import opened Unseen
  import opened ReplayDamage
  import opened AppReplay
  import E = EmbeddingRevision
  import I = IdempotencyRevision

  /** The groups of the revisions walked, in the order of their upgrades. */
  function Walk(steps: int): seq<Group> {
    if steps == 1 then I.IDEMPOTENCY else E.EMBEDDING + I.IDEMPOTENCY
  }

  /** A group with something to do that the exact theorems are about. */
  ghost predicate Busy(g: Group) {
    Plain(g) && (g.Create? || g.changes != [])
  }

  lemma OrdersBusy()
    ensures Busy(I.ORDERS)
  {
    assert Firm(I.ORDERS.changes);
  }

  lemma EmbeddingBusy()
    ensures |E.EMBEDDING| == 1 && E.EMBEDDING[0] == Alter(MemoryNodes, [E.CHANGE]) && Busy(E.EMBEDDING[0])
  {
    E.FlagIsNew();
    assert Firm([E.CHANGE]);
  }

  lemma CreatesBusy()
    ensures Busy(I.PAYMENTS) && Busy(I.REFUNDS) && Busy(I.WEBHOOKS)
  {
    I.PaymentsCreatable();
    I.RefundsCreatable();
    I.WebhooksCreatable();
    PaymentsIndexed();
    RefundsIndexed();
    WebhooksIndexed();
    CreatableBusy(I.PAYMENTS);
    CreatableBusy(I.REFUNDS);
    CreatableBusy(I.WEBHOOKS);
  }

  lemma CreatableBusy(g: Group)
    requires Creatable(g) && OnlyIndexes(g.changes)
    ensures Busy(g)
  {
    CreateRuns(g, map[]);
  }

  lemma PaymentsIndexed()
    ensures OnlyIndexes(I.PAYMENTS.changes)
  {}

  lemma RefundsIndexed()
    ensures OnlyIndexes(I.REFUNDS.changes)
  {}

  lemma WebhooksIndexed()
    ensures OnlyIndexes(I.WEBHOOKS.changes)
  {}

  lemma Positions(steps: int)
    requires 1 <= steps <= 2
    ensures var walk := Walk(steps);
      && |walk| == 3 + steps && walk[steps - 1] == I.ORDERS && (steps == 2 ==> walk[0] == E.EMBEDDING[0])
      && walk[steps] == I.PAYMENTS && walk[steps + 1] == I.REFUNDS && walk[steps + 2] == I.WEBHOOKS
  {}

  lemma TablesDistinct(walk: seq<Group>, steps: int)
    requires 1 <= steps <= 2 && |walk| == 3 + steps
    requires walk[steps - 1].table == FreelanceOrders && (steps == 2 ==> walk[0].table == MemoryNodes)
    requires walk[steps].table == FreelancePaymentRecords && walk[steps + 1].table == FreelanceRefundRecords
    requires walk[steps + 2].table == FreelanceWebhookEvents
    ensures DistinctTables(walk)
  {}

  lemma WalkDistinct(steps: int)
    requires 1 <= steps <= 2
    ensures DistinctTables(Walk(steps))
  {
    Positions(steps);
    TablesDistinct(Walk(steps), steps);
  }

  /** A condition on a walk of four or five groups, one by one. */
  lemma OneByOne(walk: seq<Group>, steps: int, holds: Group -> bool)
    requires 1 <= steps <= 2 && |walk| == 3 + steps
    ensures (forall i :: 0 <= i < |walk| ==> holds(walk[i])) <==>
      holds(walk[steps]) && holds(walk[steps + 1]) && holds(walk[steps + 2]) && holds(walk[steps - 1]) && (steps == 2 ==> holds(walk[0]))
  {
    forall i | 0 <= i < |walk|
      ensures walk[i] in {walk[steps], walk[steps + 1], walk[steps + 2], walk[steps - 1]} || (steps == 2 && i == 0)
    {}
  }

  lemma AllBusy(walk: seq<Group>, steps: int)
    requires 1 <= steps <= 2 && |walk| == 3 + steps && Busy(walk[steps - 1]) && (steps == 2 ==> Busy(walk[0]))
    requires Busy(walk[steps]) && Busy(walk[steps + 1]) && Busy(walk[steps + 2])
    ensures forall i :: 0 <= i < |walk| ==> Busy(walk[i])
  {
    OneByOne(walk, steps, g => Busy(g));
  }

  lemma WalkBusy(steps: int)
    requires 1 <= steps <= 2
    ensures forall i :: 0 <= i < |Walk(steps)| ==> Busy(Walk(steps)[i])
  {
    OrdersBusy();
    EmbeddingBusy();
    CreatesBusy();
    Positions(steps);
    AllBusy(Walk(steps), steps);
  }

  // ---- the orders ----

  /** Key and index are as the upgrade leaves them, and nothing else is over the key. */
  ghost predicate OrdersMet(t: Table) {
    && I.KEY in t.columns && t.columns[I.KEY] == I.ORDER_KEY
    && I.ORDER_INDEX in t.indexes && t.indexes[I.ORDER_INDEX] == I.KEYED
    && Unmentioned(t, {I.KEY}, {I.ORDER_INDEX})
  }

  /** The key has its type and may be NULL, and no index name but the upgrade's is over it. */
  ghost predicate OrdersSeen(t: Table) {
    && I.KEY in t.columns && t.columns[I.KEY].typ == I.ORDER_KEY.typ && t.columns[I.KEY].nullable
    && NamesKept(t, {I.KEY}, {I.ORDER_INDEX})
  }

  lemma OrdersSets()
    ensures AddedIn(I.ORDERS.changes) == {I.KEY} && CreatedIn(I.ORDERS.changes) == {I.ORDER_INDEX}
  {
    var add, index := I.ORDERS.changes[0], I.ORDERS.changes[1];
    assert I.ORDERS.changes[..1] == [add] && [add][..0] == [];
    assert AddedIn([add]) == {} + {I.KEY} && CreatedIn([add]) == {} + {};
  }

  lemma OrdersGroup(t: Table)
    ensures GroupMet(I.ORDERS, t) <==> OrdersMet(t)
    ensures GroupSeen(I.ORDERS, t) <==> OrdersSeen(t)
  {
    OrdersSets();
    var changes := I.ORDERS.changes;
    assert AllInPlace(changes, t) <==> InPlace(changes[0], t) && InPlace(changes[1], t);
    assert AllSeenPlace(changes, t) <==> SeenPlace(changes[0], t) && SeenPlace(changes[1], t);
  }

  lemma NodesGroup(t: Table)
    ensures GroupMet(E.EMBEDDING[0], t) <==> Post(E.CHANGE, t)
    ensures GroupSeen(E.EMBEDDING[0], t) <==> SeenPost(E.CHANGE, t)
  {
    E.FlagIsNew();
    AloneIsTidy(E.CHANGE, t);
    AloneMet(E.CHANGE, t);
  }

  lemma AloneMet(c: Change, t: Table)
    ensures AllPost([c], t) <==> Post(c, t)
  {
    assert [c][..0] == [];
    assert AddedIn([c]) == {} + AddedBy(c) && CreatedIn([c]) == {} + CreatedBy(c);
    assert AllInPlace([c], t) <==> InPlace([c][0], t);
  }

  // ---- the verdict ----

  /** The tables of the revisions walked are as their upgrades leave them. */
  ghost predicate PairMet(db: Db, steps: int) {
    && Met(I.PAYMENTS, db) && Met(I.REFUNDS, db) && Met(I.WEBHOOKS, db)
    && FreelanceOrders in db && OrdersMet(db[FreelanceOrders])
    && (steps == 2 ==> MemoryNodes in db && Post(E.CHANGE, db[MemoryNodes]))
  }

  /** ... as far as a snapshot shows. */
  ghost predicate PairSeen(db: Db, steps: int) {
    && Seen(I.PAYMENTS, db) && Seen(I.REFUNDS, db) && Seen(I.WEBHOOKS, db)
    && FreelanceOrders in db && OrdersSeen(db[FreelanceOrders])
    && (steps == 2 ==> MemoryNodes in db && SeenPost(E.CHANGE, db[MemoryNodes]))
  }

  lemma OrdersRead(db: Db)
    ensures Met(I.ORDERS, db) <==> FreelanceOrders in db && OrdersMet(db[FreelanceOrders])
    ensures Seen(I.ORDERS, db) <==> FreelanceOrders in db && OrdersSeen(db[FreelanceOrders])
  {
    if FreelanceOrders in db { OrdersGroup(db[FreelanceOrders]); }
  }

  lemma NodesRead(db: Db)
    ensures Met(E.EMBEDDING[0], db) <==> MemoryNodes in db && Post(E.CHANGE, db[MemoryNodes])
    ensures Seen(E.EMBEDDING[0], db) <==> MemoryNodes in db && SeenPost(E.CHANGE, db[MemoryNodes])
  {
    EmbeddingBusy();
    if MemoryNodes in db { NodesGroup(db[MemoryNodes]); }
  }

  lemma ReadOff(walk: seq<Group>, steps: int, db: Db, nodes: Group, orders: Group, first: Group, second: Group, third: Group)
    requires 1 <= steps <= 2 && |walk| == 3 + steps && walk[steps - 1] == orders && (steps == 2 ==> walk[0] == nodes)
    requires walk[steps] == first && walk[steps + 1] == second && walk[steps + 2] == third
    ensures (forall i :: 0 <= i < |walk| ==> Met(walk[i], db)) <==>
      Met(first, db) && Met(second, db) && Met(third, db) && Met(orders, db) && (steps == 2 ==> Met(nodes, db))
    ensures (forall i :: 0 <= i < |walk| ==> Seen(walk[i], db)) <==>
      Seen(first, db) && Seen(second, db) && Seen(third, db) && Seen(orders, db) && (steps == 2 ==> Seen(nodes, db))
  {
    OneByOne(walk, steps, g => Met(g, db));
    OneByOne(walk, steps, g => Seen(g, db));
  }

  lemma PairRead(db: Db, steps: int)
    requires 1 <= steps <= 2
    ensures (forall i :: 0 <= i < |Walk(steps)| ==> Met(Walk(steps)[i], db)) <==> PairMet(db, steps)
    ensures (forall i :: 0 <= i < |Walk(steps)| ==> Seen(Walk(steps)[i], db)) <==> PairSeen(db, steps)
  {
    Positions(steps);
    ReadOff(Walk(steps), steps, db, E.EMBEDDING[0], I.ORDERS, I.PAYMENTS, I.REFUNDS, I.WEBHOOKS);
    OrdersRead(db);
    NodesRead(db);
  }

  lemma JointOfTwo(makes: map<string, seq<Group>>, newer: string, older: string)
    requires newer in makes && older in makes
    ensures Joint(makes, [newer]) == makes[newer]
    ensures Joint(makes, [newer, older]) == makes[older] + makes[newer]
  {
    var none: seq<string> := [];
    assert [newer][1..] == none && [older][1..] == none && [newer, older][1..] == [older];
    assert Joint(makes, none) == [];
    assert Joint(makes, [older]) == [] + makes[older];
    assert Joint(makes, [newer]) == [] + makes[newer];
  }

  lemma WalkIsJoint(scripts: Scripts, line: seq<string>, steps: int) returns (makes: map<string, seq<Group>>)
    requires PairAtHead(scripts, line) && 1 <= steps <= 2
    ensures Scripted(scripts, makes, line[..Walked(line, steps)])
    ensures Joint(makes, line[..Walked(line, steps)]) == Walk(steps)
  {
    makes := map[line[0] := I.IDEMPOTENCY, line[1] := E.EMBEDDING];
    JointOfTwo(makes, line[0], line[1]);
    var chain := line[..Walked(line, steps)];
    assert chain == if steps == 1 then [line[0]] else [line[0], line[1]];
  }

  /** A replay of one or both revisions, over any database, that runs through ends with
      `Replayed` exactly when the tables at head look as the upgrades leave them, and has
      restored the schema exactly when they are so. */
  lemma PairReplayedExactly(scripts: Scripts, line: seq<string>, steps: int, db: Db)
    requires PairAtHead(scripts, line) && 1 <= steps <= 2
    ensures var end := EndOf(scripts, line, steps, db);
      !end.verdict.DowngradeFailed? && !end.verdict.UpgradeFailed? ==>
        && (end.verdict == Replayed <==> PairSeen(db, steps))
        && (SameSchema(end.tables, db) <==> PairMet(db, steps))
  {
    var end := EndOf(scripts, line, steps, db);
    if !end.verdict.DowngradeFailed? && !end.verdict.UpgradeFailed? {
      var makes := WalkIsJoint(scripts, line, steps);
      WalkDistinct(steps);
      WalkBusy(steps);
      PlainTidy(Walk(steps));
      ReplayedExactly(scripts, makes, line, steps, db);
      ChainIsJoint(scripts, makes, line[..Walked(line, steps)]);
      forall i: nat | i < |Walk(steps)| ensures Walk(steps)[i].table in db { DownFinds(Walk(steps), db, i); }
      MetByGroup(Walk(steps), db);
      PairRead(db, steps);
    }
  }
}
