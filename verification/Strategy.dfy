/** Strategy learning: the best-scored strategy is picked, and its score moves with the
    outcome. Scores are counted in units of 0.05. */
module Strategy {
  import opened Options

  const FLOOR := 2      // 0.1
  const CEILING := 40   // 2.0
  const GAIN := 2       // 0.1
  const LOSS := 3       // 0.15

  datatype Row = Row(id: string, intent: string, owner: Option<string>, flow: string,
                     score: int, usage: nat, successes: nat, failures: nat)

  /** Whose strategies a query looks at. */
  datatype Scope = OwnedBy(user: string) | SystemOnly | Everyone

  predicate Matches(row: Row, intent: string, scope: Scope) {
    row.intent == intent &&
    match scope
    case OwnedBy(user) => row.owner == Some(user)
    case SystemOnly => row.owner == None
    case Everyone => true
  }

  predicate AnyMatch(rows: seq<Row>, intent: string, scope: Scope) {
    exists k :: 0 <= k < |rows| && Matches(rows[k], intent, scope)
  }

  /** Row `k` matches and no matching row scores higher. */
  predicate IsBest(rows: seq<Row>, intent: string, scope: Scope, k: nat) {
    && k < |rows| && Matches(rows[k], intent, scope)
    && forall j :: 0 <= j < |rows| && Matches(rows[j], intent, scope) ==> rows[j].score <= rows[k].score
  }

  function UpdateScope(user: Option<string>): Scope {
    if user.Some? then OwnedBy(user.value) else Everyone
  }

  /** The scope a selection settles on: the user's own strategies if there are any. */
  function SelectScope(rows: seq<Row>, intent: string, user: Option<string>): Scope {
    if user.Some? && AnyMatch(rows, intent, OwnedBy(user.value)) then OwnedBy(user.value) else SystemOnly
  }

  function Used(row: Row): Row {
    row.(usage := row.usage + 1)
  }

  function Judged(row: Row, success: bool): Row {
    if success then row.(successes := row.successes + 1, score := if row.score + GAIN < CEILING then row.score + GAIN else CEILING)
    else row.(failures := row.failures + 1, score := if row.score - LOSS > FLOOR then row.score - LOSS else FLOOR)
  }

  /** One selection. Which of several equally best rows is taken is left open. */
  ghost predicate Selects(rows: seq<Row>, rows': seq<Row>, intent: string, user: Option<string>, flow: Option<string>) {
    var scope := SelectScope(rows, intent, user);
    if AnyMatch(rows, intent, scope) then
      exists k: nat :: IsBest(rows, intent, scope, k) && rows' == rows[k := Used(rows[k])] && flow == Some(rows[k].flow)
    else
      rows' == rows && flow == None
  }

  /** One score update. */
  ghost predicate Updates(rows: seq<Row>, rows': seq<Row>, intent: string, user: Option<string>, success: bool) {
    var scope := UpdateScope(user);
    if AnyMatch(rows, intent, scope) then
      exists k: nat :: IsBest(rows, intent, scope, k) && rows' == rows[k := Judged(rows[k], success)]
    else
      rows' == rows
  }

  class StrategyTable {
    var rows: seq<Row>

    constructor (rows: seq<Row>)
      ensures this.rows == rows
    {
      this.rows := rows;
    }

    /** The first row by descending score, if any matches. */
    method First(intent: string, scope: Scope) returns (k: Option<nat>)
      ensures k.None? <==> !AnyMatch(rows, intent, scope)
      ensures k.Some? ==> IsBest(rows, intent, scope, k.value)
    {
      k := None;
      for j := 0 to |rows|
        invariant k.None? ==> forall i :: 0 <= i < j ==> !Matches(rows[i], intent, scope)
        invariant k.Some? ==> k.value < j && Matches(rows[k.value], intent, scope)
        invariant k.Some? ==> forall i :: 0 <= i < j && Matches(rows[i], intent, scope) ==> rows[i].score <= rows[k.value].score
      {
        if Matches(rows[j], intent, scope) && (k.None? || rows[j].score > rows[k.value].score) {
          k := Some(j);
        }
      }
    }

    method SelectStrategy(intent: string, user: Option<string>) returns (flow: Option<string>)
      modifies this
      ensures Selects(old(rows), rows, intent, user, flow)
    {
      if user.Some? {
        var own := First(intent, OwnedBy(user.value));
        if own.Some? {
          rows := rows[own.value := Used(rows[own.value])];
          return Some(rows[own.value].flow);
        }
      }
      var system := First(intent, SystemOnly);
      if system.Some? {
        rows := rows[system.value := Used(rows[system.value])];
        return Some(rows[system.value].flow);
      }
      return None;
    }

    method UpdateStrategyScore(intent: string, user: Option<string>, success: bool)
      modifies this
      ensures Updates(old(rows), rows, intent, user, success)
    {
      var best := First(intent, UpdateScope(user));
      if best.Some? {
        rows := rows[best.value := Judged(rows[best.value], success)];
      }
    }
  }

  // ---- sums over the table ----

  ghost function Sum(rows: seq<Row>, f: Row -> int): int {
    if rows == [] then 0 else f(rows[0]) + Sum(rows[1..], f)
  }

  lemma {:induction false} SumReplaced(rows: seq<Row>, k: nat, row: Row, f: Row -> int)
    requires k < |rows|
    ensures Sum(rows[k := row], f) == Sum(rows, f) - f(rows[k]) + f(row)
  {
    if k > 0 {
      assert rows[k := row][1..] == rows[1..][k - 1 := row];
      SumReplaced(rows[1..], k - 1, row, f);
    } else {
      assert rows[k := row][1..] == rows[1..];
    }
  }

  lemma {:induction false} SumPositive(rows: seq<Row>, f: Row -> int)
    requires forall k :: 0 <= k < |rows| ==> 0 <= f(rows[k])
    ensures 0 <= Sum(rows, f)
  {
    if rows != [] {
      var rest := rows[1..];
      assert forall k :: 0 <= k < |rest| ==> rest[k] == rows[k + 1];
      SumPositive(rest, f);
    }
  }

  lemma {:induction false} SumZeroExactly(rows: seq<Row>, f: Row -> int)
    requires forall k :: 0 <= k < |rows| ==> 0 <= f(rows[k])
    ensures Sum(rows, f) == 0 <==> forall k :: 0 <= k < |rows| ==> f(rows[k]) == 0
  {
    if rows != [] {
      var rest := rows[1..];
      assert forall k :: 0 <= k < |rest| ==> rest[k] == rows[k + 1];
      SumPositive(rest, f);
      SumZeroExactly(rest, f);
      ZeroFirst(rows, f);
    }
  }

  lemma ZeroFirst(rows: seq<Row>, f: Row -> int)
    requires rows != []
    ensures (forall k :: 0 <= k < |rows| ==> f(rows[k]) == 0) <==>
      f(rows[0]) == 0 && forall k :: 0 <= k < |rows[1..]| ==> f(rows[1..][k]) == 0
  {
    var rest := rows[1..];
    if f(rows[0]) == 0 && forall k :: 0 <= k < |rest| ==> f(rest[k]) == 0 {
      forall k | 0 <= k < |rows| ensures f(rows[k]) == 0 {
        if k > 0 { assert rest[k - 1] == rows[k]; }
      }
    }
  }

  // ---- demotion ----

  ghost predicate Ranged(row: Row) {
    2 <= row.score <= 40
  }

  /** The strategies in question are in range. */
  ghost predicate InRange(rows: seq<Row>, intent: string, scope: Scope) {
    forall k :: 0 <= k < |rows| && Matches(rows[k], intent, scope) ==> Ranged(rows[k])
  }

  /** How many failures a matching row still has to take before it sits at the floor. */
  ghost function Levels(intent: string, scope: Scope): Row -> int {
    row => if Matches(row, intent, scope) then row.score / 3 else 0
  }

  ghost function Matching(intent: string, scope: Scope): Row -> int {
    row => if Matches(row, intent, scope) then 1 else 0
  }

  ghost predicate AllDemoted(rows: seq<Row>, intent: string, scope: Scope) {
    forall k :: 0 <= k < |rows| && Matches(rows[k], intent, scope) ==> rows[k].score == FLOOR
  }

  /** `tables` are the successive states under failed updates for one intent and user. */
  ghost predicate FailedUpdates(tables: seq<seq<Row>>, intent: string, user: Option<string>) {
    tables != [] && forall i :: 0 <= i < |tables| - 1 ==> Updates(tables[i], tables[i + 1], intent, user, false)
  }

  ghost function Remaining(rows: seq<Row>, intent: string, scope: Scope): int {
    Sum(rows, Levels(intent, scope))
  }

  lemma DemotedExactly(rows: seq<Row>, intent: string, scope: Scope)
    requires InRange(rows, intent, scope)
    ensures Remaining(rows, intent, scope) >= 0
    ensures Remaining(rows, intent, scope) == 0 <==> AllDemoted(rows, intent, scope)
  {
    var f := Levels(intent, scope);
    forall k | 0 <= k < |rows| ensures 0 <= f(rows[k]) && (f(rows[k]) == 0 <==> !Matches(rows[k], intent, scope) || rows[k].score == FLOOR) {}
    SumPositive(rows, f);
    SumZeroExactly(rows, f);
  }

  lemma JudgedLevel(row: Row)
    requires Ranged(row)
    ensures var row' := Judged(row, false);
      Ranged(row') && row'.score / 3 == if row.score / 3 > 0 then row.score / 3 - 1 else 0
  {}

  /** Levels are left exactly when a best row has one. */
  lemma BestHasLevels(rows: seq<Row>, intent: string, scope: Scope, k: nat)
    requires InRange(rows, intent, scope) && IsBest(rows, intent, scope, k)
    ensures Remaining(rows, intent, scope) > 0 <==> rows[k].score / 3 > 0
  {
    DemotedExactly(rows, intent, scope);
  }

  lemma NoMatchNoLevels(rows: seq<Row>, intent: string, scope: Scope)
    requires !AnyMatch(rows, intent, scope)
    ensures Remaining(rows, intent, scope) == 0
  {
    SumZeroExactly(rows, Levels(intent, scope));
  }

  /** A failed update takes exactly one level off the whole table until none is left,
      because it always hits a current maximum. */
  lemma FailureDemotes(rows: seq<Row>, rows': seq<Row>, intent: string, user: Option<string>)
    requires InRange(rows, intent, UpdateScope(user)) && Updates(rows, rows', intent, user, false)
    ensures InRange(rows', intent, UpdateScope(user))
    ensures var scope := UpdateScope(user);
      Remaining(rows', intent, scope) ==
      if Remaining(rows, intent, scope) > 0 then Remaining(rows, intent, scope) - 1 else 0
  {
    var scope := UpdateScope(user);
    if AnyMatch(rows, intent, scope) {
      var k: nat :| IsBest(rows, intent, scope, k) && rows' == rows[k := Judged(rows[k], false)];
      JudgedLevel(rows[k]);
      BestHasLevels(rows, intent, scope, k);
      DemotedExactly(rows, intent, scope);
      SumReplaced(rows, k, Judged(rows[k], false), Levels(intent, scope));
    } else {
      NoMatchNoLevels(rows, intent, scope);
    }
  }

  lemma {:induction false} RemainingAfter(tables: seq<seq<Row>>, intent: string, user: Option<string>)
    requires FailedUpdates(tables, intent, user) && InRange(tables[0], intent, UpdateScope(user))
    ensures InRange(tables[|tables| - 1], intent, UpdateScope(user))
    ensures var scope := UpdateScope(user);
      var before := Remaining(tables[0], intent, scope);
      Remaining(tables[|tables| - 1], intent, scope) == if before > |tables| - 1 then before - (|tables| - 1) else 0
  {
    DemotedExactly(tables[0], intent, UpdateScope(user));
    if |tables| > 1 {
      var front := tables[..|tables| - 1];
      RemainingAfter(front, intent, user);
      FailureDemotes(front[|front| - 1], tables[|tables| - 1], intent, user);
    }
  }

  /** After consecutive failed updates every matching strategy sits at the floor exactly
      when there were at least as many updates as the table had levels. */
  lemma DemotionExactly(tables: seq<seq<Row>>, intent: string, user: Option<string>)
    requires FailedUpdates(tables, intent, user) && InRange(tables[0], intent, UpdateScope(user))
    ensures var scope := UpdateScope(user);
      AllDemoted(tables[|tables| - 1], intent, scope) <==> |tables| - 1 >= Remaining(tables[0], intent, scope)
  {
    RemainingAfter(tables, intent, user);
    DemotedExactly(tables[|tables| - 1], intent, UpdateScope(user));
  }

  lemma {:induction false} LevelsPerMatch(rows: seq<Row>, intent: string, scope: Scope)
    requires InRange(rows, intent, scope)
    ensures Remaining(rows, intent, scope) <= 13 * Sum(rows, Matching(intent, scope))
  {
    if rows != [] {
      assert forall k :: 0 <= k < |rows[1..]| ==> rows[1..][k] == rows[k + 1];
      LevelsPerMatch(rows[1..], intent, scope);
    }
  }

  /** Thirteen failures per matching strategy always suffice. */
  lemma DemotionBound(tables: seq<seq<Row>>, intent: string, user: Option<string>)
    requires FailedUpdates(tables, intent, user) && InRange(tables[0], intent, UpdateScope(user))
    requires |tables| - 1 >= 13 * Sum(tables[0], Matching(intent, UpdateScope(user)))
    ensures AllDemoted(tables[|tables| - 1], intent, UpdateScope(user))
  {
    LevelsPerMatch(tables[0], intent, UpdateScope(user));
    DemotionExactly(tables, intent, user);
  }

  // ---- runs of selects and updates ----

  datatype Op = Select(intent: string, user: Option<string>) | Update(intent: string, user: Option<string>, success: bool)

  ghost predicate Steps(rows: seq<Row>, rows': seq<Row>, op: Op) {
    match op
    case Select(intent, user) => exists flow :: Selects(rows, rows', intent, user, flow)
    case Update(intent, user, success) => Updates(rows, rows', intent, user, success)
  }

  ghost predicate IsRun(tables: seq<seq<Row>>, ops: seq<Op>) {
    |tables| == |ops| + 1 && forall i :: 0 <= i < |ops| ==> Steps(tables[i], tables[i + 1], ops[i])
  }

  function OpScope(rows: seq<Row>, op: Op): Scope {
    if op.Select? then SelectScope(rows, op.intent, op.user) else UpdateScope(op.user)
  }

  /** The operation finds a row; that depends only on the rows' intents and owners. */
  predicate Finds(rows: seq<Row>, op: Op) {
    AnyMatch(rows, op.intent, OpScope(rows, op))
  }

  function SelectsThatFind(rows: seq<Row>, ops: seq<Op>): nat {
    if ops == [] then 0
    else SelectsThatFind(rows, ops[..|ops| - 1]) + if ops[|ops| - 1].Select? && Finds(rows, ops[|ops| - 1]) then 1 else 0
  }

  function UpdatesThatFind(rows: seq<Row>, ops: seq<Op>): nat {
    if ops == [] then 0
    else UpdatesThatFind(rows, ops[..|ops| - 1]) + if ops[|ops| - 1].Update? && Finds(rows, ops[|ops| - 1]) then 1 else 0
  }

  ghost predicate SameStrategies(rows: seq<Row>, rows': seq<Row>) {
    |rows| == |rows'| && forall k :: 0 <= k < |rows| ==>
      rows[k].id == rows'[k].id && rows[k].intent == rows'[k].intent && rows[k].owner == rows'[k].owner && rows[k].flow == rows'[k].flow
  }

  /** What a score can be, given how often the strategy succeeded and failed. */
  ghost predicate Accounted(row: Row) {
    20 - 3 * row.failures <= row.score <= 20 + 2 * row.successes
  }

  ghost function Usage(): Row -> int { (row: Row) => row.usage }

  ghost function Verdicts(): Row -> int { (row: Row) => row.successes + row.failures }

  /** At most row `k` differs, and only as the operation prescribes. */
  lemma StepTouchesOne(rows: seq<Row>, rows': seq<Row>, op: Op) returns (k: nat)
    requires Steps(rows, rows', op)
    ensures if Finds(rows, op)
      then IsBest(rows, op.intent, OpScope(rows, op), k) &&
           rows' == rows[k := if op.Select? then Used(rows[k]) else Judged(rows[k], op.success)]
      else rows' == rows
  {
    k := 0;
    if Finds(rows, op) {
      if op.Select? {
        var flow :| Selects(rows, rows', op.intent, op.user, flow);
        k :| IsBest(rows, op.intent, OpScope(rows, op), k) && rows' == rows[k := Used(rows[k])];
      } else {
        k :| IsBest(rows, op.intent, OpScope(rows, op), k) && rows' == rows[k := Judged(rows[k], op.success)];
      }
    }
  }

  lemma SameFinds(rows: seq<Row>, rows': seq<Row>, op: Op)
    requires SameStrategies(rows, rows')
    ensures Finds(rows, op) == Finds(rows', op)
  {
    SameMatch(rows, rows', op.intent, SystemOnly);
    SameMatch(rows, rows', op.intent, UpdateScope(op.user));
  }

  lemma SameMatch(rows: seq<Row>, rows': seq<Row>, intent: string, scope: Scope)
    requires SameStrategies(rows, rows')
    ensures AnyMatch(rows, intent, scope) == AnyMatch(rows', intent, scope)
  {
    if k :| 0 <= k < |rows| && Matches(rows[k], intent, scope) { assert Matches(rows'[k], intent, scope); }
    if k :| 0 <= k < |rows'| && Matches(rows'[k], intent, scope) { assert Matches(rows[k], intent, scope); }
  }

  /** One operation keeps every row in range and accounted for that was, and counts itself
      once if it finds a row. */
  lemma StepKeepsLedger(rows: seq<Row>, rows': seq<Row>, op: Op)
    requires Steps(rows, rows', op)
    ensures SameStrategies(rows, rows')
    ensures forall k :: 0 <= k < |rows| && Ranged(rows[k]) ==> Ranged(rows'[k])
    ensures forall k :: 0 <= k < |rows| && Ranged(rows[k]) && Accounted(rows[k]) ==> Accounted(rows'[k])
    ensures Sum(rows', Usage()) == Sum(rows, Usage()) + if op.Select? && Finds(rows, op) then 1 else 0
    ensures Sum(rows', Verdicts()) == Sum(rows, Verdicts()) + if op.Update? && Finds(rows, op) then 1 else 0
  {
    var k := StepTouchesOne(rows, rows', op);
    if Finds(rows, op) {
      var row := if op.Select? then Used(rows[k]) else Judged(rows[k], op.success);
      assert rows' == rows[k := row];
      assert Ranged(rows[k]) ==> Ranged(row) && (Accounted(rows[k]) ==> Accounted(row));
      SumReplaced(rows, k, row, Usage());
      SumReplaced(rows, k, row, Verdicts());
    }
  }

  /** Over any run the strategies stay the same ones; every select that found a row counted
      one use and every update that found a row one verdict; a row whose score was in range
      stays in range, and if it was accounted for by its own successes and failures, it is. */
  lemma {:induction false} RunKeepsLedger(tables: seq<seq<Row>>, ops: seq<Op>)
    requires IsRun(tables, ops)
    ensures var first, last := tables[0], tables[|ops|];
      && SameStrategies(first, last)
      && (forall k :: 0 <= k < |first| && Ranged(first[k]) ==> Ranged(last[k]))
      && (forall k :: 0 <= k < |first| && Ranged(first[k]) && Accounted(first[k]) ==> Accounted(last[k]))
      && Sum(last, Usage()) == Sum(first, Usage()) + SelectsThatFind(first, ops)
      && Sum(last, Verdicts()) == Sum(first, Verdicts()) + UpdatesThatFind(first, ops)
  {
    if ops != [] {
      var n := |ops| - 1;
      RunKeepsLedger(tables[..n + 1], ops[..n]);
      StepKeepsLedger(tables[n], tables[n + 1], ops[n]);
      SameFinds(tables[0], tables[n], ops[n]);
    }
  }

  /** A select changes no score and no verdict, and returns the flow of a highest-scored
      strategy of the user, or of a highest-scored system strategy if the user has none. */
  lemma SelectPrefersOwn(rows: seq<Row>, rows': seq<Row>, intent: string, user: Option<string>, flow: Option<string>)
    requires Selects(rows, rows', intent, user, flow)
    ensures |rows'| == |rows|
    ensures forall k :: 0 <= k < |rows| ==> rows'[k].(usage := rows[k].usage) == rows[k]
    ensures user.Some? && AnyMatch(rows, intent, OwnedBy(user.value)) ==>
      exists k: nat :: IsBest(rows, intent, OwnedBy(user.value), k) && flow == Some(rows[k].flow)
    ensures flow == None <==>
      !AnyMatch(rows, intent, SystemOnly) && (user.None? || !AnyMatch(rows, intent, OwnedBy(user.value)))
  {}

  /** An update for a user touches no other user's strategy and no system strategy. */
  lemma OwnedUpdateStaysHome(rows: seq<Row>, rows': seq<Row>, intent: string, user: string, success: bool)
    requires Updates(rows, rows', intent, Some(user), success)
    ensures |rows'| == |rows|
    ensures forall k :: 0 <= k < |rows| && rows[k].owner != Some(user) ==> rows'[k] == rows[k]
  {}

  /** No update without a user changes an owned strategy, whichever best row it takes. */
  ghost predicate AnonymousStaysSystem(rows: seq<Row>, intent: string, success: bool) {
    forall rows' :: Updates(rows, rows', intent, None, success) ==>
      |rows'| == |rows| && forall k :: 0 <= k < |rows| && rows[k].owner.Some? ==> rows'[k] == rows[k]
  }

  /** An update without a user is not confined to system strategies: owned ones are safe
      exactly when no owned strategy is among the best for the intent. */
  lemma AnonymousStaysSystemExactly(rows: seq<Row>, intent: string, success: bool)
    ensures AnonymousStaysSystem(rows, intent, success) <==>
      forall k: nat :: IsBest(rows, intent, Everyone, k) ==> rows[k].owner.None?
  {
    if k: nat :| IsBest(rows, intent, Everyone, k) && rows[k].owner.Some? {
      var rows' := rows[k := Judged(rows[k], success)];
      assert Updates(rows, rows', intent, None, success);
      assert rows'[k] != rows[k];
    }
  }

  const OWNED: Row := Row("s1", "plan", Some("ann"), "a", 20, 0, 0, 0)
  const SYSTEM: Row := Row("s0", "plan", None, "b", 17, 0, 0, 1)

  /** A table on which an update without a user can only judge a user's own strategy. */
  lemma AnonymousUpdateHitsOwned(rows': seq<Row>, success: bool)
    requires Updates([SYSTEM, OWNED], rows', "plan", None, success)
    ensures rows' == [SYSTEM, if success then OWNED.(score := 22, successes := 1) else OWNED.(score := 17, failures := 1)]
  {
    var rows := [SYSTEM, OWNED];
    assert Matches(rows[1], "plan", Everyone);
    var j: nat :| IsBest(rows, "plan", Everyone, j) && rows' == rows[j := Judged(rows[j], success)];
  }

  // ---- what one operation does, told by the rows ----

  function Least(a: int, b: int): int {
    if a < b then a else b
  }

  /** A strategy for the intent, of the user if there is one. */
  predicate InQuestion(row: Row, intent: string, user: Option<string>) {
    row.intent == intent && (user.Some? ==> row.owner == user)
  }

  /** A success raises the score by 0.1, at most to 2.0; a failure lowers it by 0.15, at most
      to 0.1; each is counted, and nothing else changes. */
  ghost predicate ScoreMoved(row: Row, row': Row, success: bool) {
    && row'.id == row.id && row'.intent == row.intent && row'.owner == row.owner && row'.flow == row.flow && row'.usage == row.usage
    && row'.score == (if success then row.score + Least(2, 40 - row.score) else row.score - Least(3, row.score - 2))
    && row'.successes == row.successes + (if success then 1 else 0)
    && row'.failures == row.failures + (if success then 0 else 1)
  }

  ghost predicate OthersSame(rows: seq<Row>, rows': seq<Row>, k: nat) {
    |rows'| == |rows| && forall j :: 0 <= j < |rows| && j != k ==> rows'[j] == rows[j]
  }

  /** An update moves the score of exactly one strategy in question that none of the others in
      question beats, and changes nothing if there is none. */
  lemma UpdateExactly(rows: seq<Row>, rows': seq<Row>, intent: string, user: Option<string>, success: bool)
    returns (k: nat)
    requires Updates(rows, rows', intent, user, success)
    ensures if exists i :: 0 <= i < |rows| && InQuestion(rows[i], intent, user)
      then
        && k < |rows| && InQuestion(rows[k], intent, user)
        && (forall j :: 0 <= j < |rows| && InQuestion(rows[j], intent, user) ==> rows[j].score <= rows[k].score)
        && OthersSame(rows, rows', k) && ScoreMoved(rows[k], rows'[k], success)
      else rows' == rows
  {
    k := 0;
    assert forall i :: 0 <= i < |rows| ==> (InQuestion(rows[i], intent, user) <==> Matches(rows[i], intent, UpdateScope(user)));
    if AnyMatch(rows, intent, UpdateScope(user)) {
      k :| IsBest(rows, intent, UpdateScope(user), k) && rows' == rows[k := Judged(rows[k], success)];
    }
  }

  predicate SystemFor(row: Row, intent: string) {
    row.intent == intent && row.owner == None
  }

  /** The user has a strategy for the intent. */
  predicate HasOwn(rows: seq<Row>, intent: string, user: Option<string>) {
    user.Some? && exists i :: 0 <= i < |rows| && InQuestion(rows[i], intent, user)
  }

  predicate Eligible(rows: seq<Row>, row: Row, intent: string, user: Option<string>) {
    if HasOwn(rows, intent, user) then InQuestion(row, intent, user) else SystemFor(row, intent)
  }

  /** A selection returns the flow of one eligible strategy that no other eligible one beats,
      and counts one use of it; the user's own strategies are eligible, or the system's if the
      user has none. */
  lemma SelectExactly(rows: seq<Row>, rows': seq<Row>, intent: string, user: Option<string>, flow: Option<string>)
    returns (k: nat)
    requires Selects(rows, rows', intent, user, flow)
    ensures if exists i :: 0 <= i < |rows| && Eligible(rows, rows[i], intent, user)
      then
        && k < |rows| && Eligible(rows, rows[k], intent, user) && flow == Some(rows[k].flow)
        && (forall j :: 0 <= j < |rows| && Eligible(rows, rows[j], intent, user) ==> rows[j].score <= rows[k].score)
        && OthersSame(rows, rows', k)
        && rows'[k] == rows[k].(usage := rows[k].usage + 1)
      else rows' == rows && flow == None
  {
    k := 0;
    var scope := SelectScope(rows, intent, user);
    EligibleMatches(rows, intent, user);
    if AnyMatch(rows, intent, scope) {
      k :| IsBest(rows, intent, scope, k) && rows' == rows[k := Used(rows[k])] && flow == Some(rows[k].flow);
    }
  }

  lemma EligibleMatches(rows: seq<Row>, intent: string, user: Option<string>)
    ensures forall i :: 0 <= i < |rows| ==>
      (Eligible(rows, rows[i], intent, user) <==> Matches(rows[i], intent, SelectScope(rows, intent, user)))
  {
    if user.Some? {
      assert forall i :: 0 <= i < |rows| ==> (InQuestion(rows[i], intent, user) <==> Matches(rows[i], intent, OwnedBy(user.value)));
      assert HasOwn(rows, intent, user) <==> AnyMatch(rows, intent, OwnedBy(user.value));
    }
  }

  // ---- promotion ----

  /** `tables` are the successive states under successful updates for one intent and user. */
  ghost predicate SuccessfulUpdates(tables: seq<seq<Row>>, intent: string, user: Option<string>) {
    tables != [] && forall i :: 0 <= i < |tables| - 1 ==> Updates(tables[i], tables[i + 1], intent, user, true)
  }

  /** The best score among the strategies in question. */
  ghost predicate TopScore(rows: seq<Row>, intent: string, user: Option<string>, score: int) {
    && (exists k :: 0 <= k < |rows| && InQuestion(rows[k], intent, user) && rows[k].score == score)
    && (forall j :: 0 <= j < |rows| && InQuestion(rows[j], intent, user) ==> rows[j].score <= score)
  }

  lemma SuccessPromotes(rows: seq<Row>, rows': seq<Row>, intent: string, user: Option<string>, score: int)
    requires Updates(rows, rows', intent, user, true) && TopScore(rows, intent, user, score) && score <= 40
    ensures TopScore(rows', intent, user, Least(40, score + 2))
  {
    var k := UpdateExactly(rows, rows', intent, user, true);
    assert InQuestion(rows'[k], intent, user);
    forall j | 0 <= j < |rows'| && InQuestion(rows'[j], intent, user) ensures rows'[j].score <= Least(40, score + 2) {
      if j != k { assert rows'[j] == rows[j]; }
    }
  }

  /** After `n` consecutive successes the best score has risen by 0.1 for each, up to 2.0: every
      success hits the strategy that the last one raised, or one as good. */
  lemma {:induction false} PromotionExactly(tables: seq<seq<Row>>, intent: string, user: Option<string>, score: int)
    requires SuccessfulUpdates(tables, intent, user) && TopScore(tables[0], intent, user, score) && score <= 40
    ensures TopScore(tables[|tables| - 1], intent, user, Least(40, score + 2 * (|tables| - 1)))
  {
    if |tables| > 1 {
      var n := |tables| - 1;
      PromotionExactly(tables[..n], intent, user, score);
      SuccessPromotes(tables[n - 1], tables[n], intent, user, Least(40, score + 2 * (n - 1)));
    }
  }
}
