/** The way down and up again for changes of a table among which some add columns: what
    comes back, what is lost with a dropped column, and when the schema is the same. */
module ColumnTrips {
  import opened Schema
  import opened Changes
  import opened Revisions
  import opened Independence
  import opened RoundTrips

  // ---- what is over a column ----

  /** The index or constraint is over one of the columns. */
  ghost predicate Over(t: Table, columns: set<string>, slot: Slot) {
    match slot
    case ColumnSlot(_) => false
    case IndexSlot(k) => k in t.indexes && !(columns !! IndexColumns(t.indexes[k]))
    case ConstraintSlot(k) => k in t.constraints && !(columns !! ConstraintColumns(t.constraints[k]))
  }

  ghost predicate Absent(t: Table, slot: Slot) {
    match slot
    case ColumnSlot(k) => k !in t.columns
    case IndexSlot(k) => k !in t.indexes
    case ConstraintSlot(k) => k !in t.constraints
  }

  /** From `t` to `u` the slot was lost with the columns, or stayed. */
  ghost predicate LostOrSame(t: Table, u: Table, columns: set<string>, slot: Slot) {
    if Over(t, columns, slot) then Absent(u, slot) else SameAt(t, u, slot)
  }

  function AddedBy(c: Change): set<string> {
    if KeepsColumns(c) then {} else {c.column}
  }

  lemma UpElsewhere(c: Change, t: Table, slot: Slot)
    requires slot !in Slots(c)
    ensures SameAt(t, Turned(c, true, t), slot)
  {}

  lemma DownElsewhere(c: Change, t: Table, slot: Slot)
    requires slot !in Slots(c)
    ensures LostOrSame(t, Turned(c, false, t), AddedBy(c), slot)
  {
    if KeepsColumns(c) { TurnedElsewhere(c, false, t, slot); }
  }

  /** What an upgrade makes of its own slots is fixed, but for the columns it alters. */
  lemma UpFixes(c: Change, t: Table, u: Table, slot: Slot)
    requires slot in Slots(c) && !c.RenamedIndex? && (slot.ColumnSlot? ==> SameAt(t, u, slot))
    ensures SameAt(Turned(c, true, t), Turned(c, true, u), slot)
  {}

  lemma DownColumn(c: Change, t: Table, u: Table, slot: Slot)
    requires slot in Slots(c) && slot.ColumnSlot? && SameAt(t, u, slot)
    ensures SameAt(Turned(c, false, t), Turned(c, false, u), slot)
  {}

  lemma TripFixes(c: Change, t: Table, u: Table, slot: Slot)
    requires slot in Slots(c) && !c.RenamedIndex? && (slot.ColumnSlot? ==> SameAt(t, u, slot))
    ensures SameAt(Trip(c, false, t), Trip(c, false, u), slot)
  {
    if slot.ColumnSlot? { DownColumn(c, t, u, slot); }
    UpFixes(c, Turned(c, false, t), Turned(c, false, u), slot);
  }

  // ---- lists of changes ----

  /** Changes of separate slots that rename nothing. */
  ghost predicate Firm(cs: seq<Change>) {
    && (forall i :: 0 <= i < |cs| ==> Sensible(cs[i]) && !cs[i].RenamedIndex?)
    && (forall i, j :: 0 <= i < j < |cs| ==> Slots(cs[i]) !! Slots(cs[j]))
  }

  /** All columns that the changes add, and all indexes that they create. */
  function AddedIn(cs: seq<Change>): set<string> {
    if cs == [] then {} else AddedIn(cs[..|cs| - 1]) + AddedBy(cs[|cs| - 1])
  }

  function CreatedIn(cs: seq<Change>): set<string> {
    if cs == [] then {} else CreatedIn(cs[..|cs| - 1]) + CreatedBy(cs[|cs| - 1])
  }

  lemma {:induction false} AddedAt(cs: seq<Change>, column: string)
    ensures column in AddedIn(cs) <==> exists i :: 0 <= i < |cs| && column in AddedBy(cs[i])
  {
    if cs != [] {
      var front := cs[..|cs| - 1];
      AddedAt(front, column);
      assert forall i :: 0 <= i < |front| ==> front[i] == cs[i];
    }
  }

  lemma {:induction false} CreatedAt(cs: seq<Change>, name: string)
    ensures name in CreatedIn(cs) <==> exists i :: 0 <= i < |cs| && name in CreatedBy(cs[i])
  {
    if cs != [] {
      var front := cs[..|cs| - 1];
      CreatedAt(front, name);
      assert forall i :: 0 <= i < |front| ==> front[i] == cs[i];
    }
  }

  /** The changes taken back from the last to the first, and made again. */
  function DownUp(cs: seq<Change>, t: Table): Table
    decreases |cs|
  {
    if cs == [] then t
    else var last := cs[|cs| - 1]; Turned(last, true, DownUp(cs[..|cs| - 1], Turned(last, false, t)))
  }

  lemma FirmFront(cs: seq<Change>)
    requires Firm(cs) && cs != []
    ensures var front, last := cs[..|cs| - 1], cs[|cs| - 1];
      && Firm(front) && Sensible(last) && !last.RenamedIndex?
      && forall i :: 0 <= i < |front| ==> front[i] == cs[i] && Slots(cs[i]) !! Slots(last)
  {
    var front := cs[..|cs| - 1];
    forall i, j | 0 <= i < j < |front| ensures Slots(front[i]) !! Slots(front[j]) {
      assert Slots(cs[i]) !! Slots(cs[j]);
    }
  }

  ghost predicate Owned(cs: seq<Change>, slot: Slot) {
    exists i :: 0 <= i < |cs| && slot in Slots(cs[i])
  }

  lemma LostThrough(t: Table, u: Table, v: Table, xs: set<string>, ys: set<string>, slot: Slot)
    requires LostOrSame(t, u, xs, slot) && LostOrSame(u, v, ys, slot)
    ensures LostOrSame(t, v, ys + xs, slot)
  {}

  lemma LostThen(t: Table, u: Table, v: Table, xs: set<string>, slot: Slot)
    requires LostOrSame(t, u, xs, slot) && SameAt(u, v, slot)
    ensures LostOrSame(t, v, xs, slot)
  {}

  /** A slot that no change names is lost exactly when it is over an added column. */
  lemma {:induction false} DownUpElsewhere(cs: seq<Change>, t: Table, slot: Slot)
    requires !Owned(cs, slot)
    ensures LostOrSame(t, DownUp(cs, t), AddedIn(cs), slot)
    decreases |cs|
  {
    if cs != [] {
      var front, last := cs[..|cs| - 1], cs[|cs| - 1];
      var t1 := Turned(last, false, t);
      var inner := DownUp(front, t1);
      assert forall i :: 0 <= i < |front| ==> front[i] == cs[i];
      assert slot !in Slots(last);
      DownElsewhere(last, t, slot);
      DownUpElsewhere(front, t1, slot);
      LostThrough(t, t1, inner, AddedBy(last), AddedIn(front), slot);
      UpElsewhere(last, inner, slot);
      LostThen(t, inner, DownUp(cs, t), AddedIn(cs), slot);
    }
  }

  lemma SameAtThrough(t: Table, u: Table, v: Table, slot: Slot)
    requires SameAt(t, u, slot) && SameAt(u, v, slot)
    ensures SameAt(t, v, slot)
  {}

  /** In its own slots every change comes out as if it alone had been taken back and made again. */
  lemma {:induction false} DownUpOwn(cs: seq<Change>, t: Table, i: nat, slot: Slot)
    requires Firm(cs) && i < |cs| && slot in Slots(cs[i])
    ensures SameAt(DownUp(cs, t), Trip(cs[i], false, t), slot)
    decreases |cs|
  {
    FirmFront(cs);
    var front, last := cs[..|cs| - 1], cs[|cs| - 1];
    var t1 := Turned(last, false, t);
    var inner := DownUp(front, t1);
    if i == |cs| - 1 {
      assert !Owned(front, slot);
      DownUpElsewhere(front, t1, slot);
      UpFixes(last, inner, t1, slot);
    } else {
      DownUpOwn(front, t1, i, slot);
      UpElsewhere(last, inner, slot);
      DownElsewhere(last, t, slot);
      TripFixes(cs[i], t1, t, slot);
      SameAtThrough(DownUp(cs, t), inner, Trip(cs[i], false, t1), slot);
      SameAtThrough(DownUp(cs, t), Trip(cs[i], false, t1), Trip(cs[i], false, t), slot);
    }
  }

  // ---- what a downgrade that ran must have found ----

  /** What was found when the columns were still there: what is created again was not there,
      or went with a column. */
  ghost predicate Found(c: Change, t: Table, columns: set<string>) {
    match c
    case Enforce(column) => column in t.columns
    case Relax(column) => column in t.columns
    case Retype(column, _, _) => column in t.columns
    case AddedIndex(name, _) => name in t.indexes
    case RemovedIndex(name, _) => name in t.indexes ==> Over(t, columns, IndexSlot(name))
    case RemovedConstraint(name, _) => name in t.constraints ==> Over(t, columns, ConstraintSlot(name))
    case RenamedIndex(name, newName) => !(name in t.indexes && newName in t.indexes)
    case MergedUnique(constraint, index, _) =>
      index in t.indexes && (constraint in t.constraints ==> Over(t, columns, ConstraintSlot(constraint)))
    case AddedColumn(column, _) => column in t.columns
    case Backfilled(column, _, index) => column in t.columns && index in t.indexes
  }

  ghost predicate AllFound(cs: seq<Change>, t: Table) {
    forall i :: 0 <= i < |cs| ==> Found(cs[i], t, AddedIn(cs))
  }

  lemma FoundNow(c: Change, t: Table)
    requires Sensible(c) && ApplyAll(Down(c), t).Done?
    ensures Found(c, t, {})
  {
    if KeepsColumns(c) {
      TurnedIs(c, false, t);
    } else if c.AddedColumn? {
      Unroll(c, t);
    } else {
      BackfillDown(c.column, c.cond, c.indexName, t);
    }
  }

  lemma FoundMore(c: Change, t: Table, columns: set<string>, more: set<string>)
    requires Found(c, t, columns) && columns <= more
    ensures Found(c, t, more)
  {}

  /** What is found after another change was taken back was there before. */
  lemma FoundBefore(c: Change, t: Table, t1: Table, columns: set<string>, dropped: set<string>)
    requires !c.RenamedIndex? && Found(c, t1, columns)
    requires forall slot :: slot in Slots(c) ==> LostOrSame(t, t1, dropped, slot)
    ensures Found(c, t, columns + dropped)
  {
    match c
    case Enforce(column) => assert LostOrSame(t, t1, dropped, ColumnSlot(column));
    case Relax(column) => assert LostOrSame(t, t1, dropped, ColumnSlot(column));
    case Retype(column, _, _) => assert LostOrSame(t, t1, dropped, ColumnSlot(column));
    case AddedIndex(name, _) => assert LostOrSame(t, t1, dropped, IndexSlot(name));
    case RemovedIndex(name, _) => assert LostOrSame(t, t1, dropped, IndexSlot(name));
    case RemovedConstraint(name, _) => assert LostOrSame(t, t1, dropped, ConstraintSlot(name));
    case MergedUnique(constraint, index, _) =>
      assert LostOrSame(t, t1, dropped, ConstraintSlot(constraint)) && LostOrSame(t, t1, dropped, IndexSlot(index));
    case AddedColumn(column, _) => assert LostOrSame(t, t1, dropped, ColumnSlot(column));
    case Backfilled(column, _, index) =>
      assert LostOrSame(t, t1, dropped, ColumnSlot(column)) && LostOrSame(t, t1, dropped, IndexSlot(index));
  }

  /** `u` has the schema that the downgrades left. */
  lemma {:induction false} DownsUps(changes: seq<Change>, t: Table, u: Table)
    requires Firm(changes) && ApplyAll(Downs(changes), t).Done?
    requires SchemaOf(u) == SchemaOf(ApplyAll(Downs(changes), t).value) && ApplyAll(Ups(changes), u).Done?
    ensures SchemaOf(ApplyAll(Ups(changes), u).value) == DownUp(changes, SchemaOf(t))
    ensures AllFound(changes, SchemaOf(t))
    decreases |changes|
  {
    if changes != [] {
      var front, last := changes[..|changes| - 1], changes[|changes| - 1];
      FirmFront(changes);
      var t1, u1 := LastChange(changes, t, u);
      DownsUps(front, t1, u);
      TurnedSchema(last, false, t);
      TurnedSchema(last, true, u1);
      FoundNow(last, t);
      FoundSchema(last, t, {});
      FoundBack(changes, SchemaOf(t));
    }
  }

  lemma FoundSchema(c: Change, t: Table, columns: set<string>)
    ensures Found(c, SchemaOf(t), columns) <==> Found(c, t, columns)
  {}

  lemma FoundBack(cs: seq<Change>, t: Table)
    requires Firm(cs) && cs != [] && Found(cs[|cs| - 1], t, {})
    requires AllFound(cs[..|cs| - 1], Turned(cs[|cs| - 1], false, t))
    ensures AllFound(cs, t)
  {
    FirmFront(cs);
    var front, last := cs[..|cs| - 1], cs[|cs| - 1];
    var t1 := Turned(last, false, t);
    FoundMore(last, t, {}, AddedIn(cs));
    forall i | 0 <= i < |front| ensures Found(cs[i], t, AddedIn(cs)) {
      forall slot | slot in Slots(cs[i]) ensures LostOrSame(t, t1, AddedBy(last), slot) { DownElsewhere(last, t, slot); }
      FoundBefore(front[i], t, t1, AddedIn(front), AddedBy(last));
    }
  }

  // ---- when the schema is the same ----

  lemma InPlaceExactly(c: Change, t: Table, columns: set<string>)
    requires !c.RenamedIndex? && Found(c, t, columns)
    ensures SameOn(t, Trip(c, false, t), Slots(c)) <==> InPlace(c, t)
  {
    var u := Trip(c, false, t);
    match c
    case Enforce(column) => OneSlot(t, u, ColumnSlot(column));
    case Relax(column) => OneSlot(t, u, ColumnSlot(column));
    case Retype(column, _, _) => OneSlot(t, u, ColumnSlot(column));
    case AddedIndex(name, _) => OneSlot(t, u, IndexSlot(name));
    case RemovedIndex(name, _) => OneSlot(t, u, IndexSlot(name));
    case RemovedConstraint(name, _) => OneSlot(t, u, ConstraintSlot(name));
    case MergedUnique(constraint, index, _) => TwoSlots(t, u, ConstraintSlot(constraint), IndexSlot(index));
    case AddedColumn(column, _) => OneSlot(t, u, ColumnSlot(column));
    case Backfilled(column, _, index) => TwoSlots(t, u, ColumnSlot(column), IndexSlot(index));
  }

  lemma OneSlot(t: Table, u: Table, slot: Slot)
    ensures SameOn(t, u, {slot}) <==> SameAt(t, u, slot)
  {}

  lemma TwoSlots(t: Table, u: Table, slot: Slot, other: Slot)
    ensures SameOn(t, u, {slot, other}) <==> SameAt(t, u, slot) && SameAt(t, u, other)
  {}

  ghost predicate AllInPlace(cs: seq<Change>, t: Table) {
    forall i :: 0 <= i < |cs| ==> InPlace(cs[i], t)
  }

  /** Everything the changes are about is as their upgrades leave it, and nothing else is over
      a column that they add. */
  ghost predicate AllPost(cs: seq<Change>, t: Table) {
    AllInPlace(cs, t) && Unmentioned(t, AddedIn(cs), CreatedIn(cs))
  }

  lemma OwnSame(cs: seq<Change>, t: Table, i: nat)
    requires Firm(cs) && AllFound(cs, t) && i < |cs|
    ensures SameOn(t, DownUp(cs, t), Slots(cs[i])) <==> InPlace(cs[i], t)
  {
    InPlaceExactly(cs[i], t, AddedIn(cs));
    forall slot | slot in Slots(cs[i]) ensures SameAt(t, DownUp(cs, t), slot) <==> SameAt(t, Trip(cs[i], false, t), slot) {
      DownUpOwn(cs, t, i, slot);
    }
  }

  /** Named by a change that is in place, an index over an added column is one created again,
      and a constraint is not there. */
  lemma OverNotOwned(cs: seq<Change>, t: Table, slot: Slot)
    requires Firm(cs) && AllInPlace(cs, t) && Over(t, AddedIn(cs), slot)
    ensures slot.IndexSlot? && slot.name !in CreatedIn(cs) ==> !Owned(cs, slot)
    ensures slot.ConstraintSlot? ==> !Owned(cs, slot)
  {
    if i :| 0 <= i < |cs| && slot in Slots(cs[i]) {
      assert InPlace(cs[i], t);
      if slot.IndexSlot? { CreatedAt(cs, slot.name); }
    }
  }

  lemma CreatedOwned(cs: seq<Change>, name: string)
    requires name in CreatedIn(cs)
    ensures Owned(cs, IndexSlot(name))
  {
    CreatedAt(cs, name);
    var i :| 0 <= i < |cs| && name in CreatedBy(cs[i]);
    assert IndexSlot(name) in Slots(cs[i]);
  }

  lemma SameGivesPost(cs: seq<Change>, t: Table)
    requires Firm(cs) && AllFound(cs, t) && forall slot :: SameAt(t, DownUp(cs, t), slot)
    ensures AllPost(cs, t)
  {
    forall i | 0 <= i < |cs| ensures InPlace(cs[i], t) { OwnSame(cs, t, i); }
    forall n | n in t.indexes && n !in CreatedIn(cs) ensures AddedIn(cs) !! IndexColumns(t.indexes[n]) {
      NotOver(cs, t, IndexSlot(n));
    }
    forall n | n in t.constraints ensures AddedIn(cs) !! ConstraintColumns(t.constraints[n]) {
      NotOver(cs, t, ConstraintSlot(n));
    }
  }

  lemma NotOver(cs: seq<Change>, t: Table, slot: Slot)
    requires Firm(cs) && AllInPlace(cs, t) && SameAt(t, DownUp(cs, t), slot)
    requires slot.ConstraintSlot? || (slot.IndexSlot? && slot.name !in CreatedIn(cs))
    ensures !Over(t, AddedIn(cs), slot)
  {
    if Over(t, AddedIn(cs), slot) {
      OverNotOwned(cs, t, slot);
      DownUpElsewhere(cs, t, slot);
    }
  }

  lemma PostGivesSame(cs: seq<Change>, t: Table, slot: Slot)
    requires Firm(cs) && AllFound(cs, t) && AllPost(cs, t)
    ensures SameAt(t, DownUp(cs, t), slot)
  {
    if Owned(cs, slot) {
      var i :| 0 <= i < |cs| && slot in Slots(cs[i]);
      OwnSame(cs, t, i);
    } else {
      DownUpElsewhere(cs, t, slot);
      if slot.IndexSlot? && slot.name in CreatedIn(cs) { CreatedOwned(cs, slot.name); }
    }
  }

  lemma {:induction false} DownUpSchema(cs: seq<Change>, t: Table)
    ensures SchemaOf(DownUp(cs, t)) == DownUp(cs, SchemaOf(t))
    decreases |cs|
  {
    if cs != [] {
      var front, last := cs[..|cs| - 1], cs[|cs| - 1];
      TurnedKeepsRows(last, false, t);
      DownUpSchema(front, Turned(last, false, t));
      TurnedKeepsRows(last, true, DownUp(front, Turned(last, false, t)));
    }
  }

  /** Taken back and made again, changes of which some add columns leave the schema the same
      exactly when everything was as their upgrades leave it, and nothing else over a column
      they add. */
  lemma FirmRedoneExactly(changes: seq<Change>, t: Table, u: Table)
    requires Firm(changes) && ApplyAll(Downs(changes), t).Done?
    requires SchemaOf(u) == SchemaOf(ApplyAll(Downs(changes), t).value) && ApplyAll(Ups(changes), u).Done?
    ensures SchemaOf(ApplyAll(Ups(changes), u).value) == SchemaOf(t) <==> AllPost(changes, t)
  {
    var s := SchemaOf(t);
    DownsUps(changes, t, u);
    DownUpSchema(changes, s);
    SameEverywhere(s, DownUp(changes, s));
    if forall slot :: SameAt(s, DownUp(changes, s), slot) { SameGivesPost(changes, s); }
    if AllPost(changes, s) {
      forall slot ensures SameAt(s, DownUp(changes, s), slot) { PostGivesSame(changes, s, slot); }
    }
    PostSchema(changes, t);
  }

  lemma PostSchema(cs: seq<Change>, t: Table)
    ensures AllPost(cs, SchemaOf(t)) <==> AllPost(cs, t)
  {
    forall i | 0 <= i < |cs| ensures InPlace(cs[i], SchemaOf(t)) <==> InPlace(cs[i], t) {}
  }

  // ---- any such list ----

  /** Changes of separate slots that do not both rename an index and add a column. */
  ghost predicate Tidy(cs: seq<Change>) {
    Separate(cs) || Firm(cs)
  }

  lemma {:induction false} SeparateAddNone(cs: seq<Change>)
    requires forall i :: 0 <= i < |cs| ==> KeepsColumns(cs[i])
    ensures AddedIn(cs) == {}
  {
    if cs != [] {
      var front := cs[..|cs| - 1];
      assert forall i :: 0 <= i < |front| ==> front[i] == cs[i];
      SeparateAddNone(front);
    }
  }

  /** The changes are redone, on the schema, exactly when the downgrade found them all as
      their upgrades leave them. */
  lemma RedoneTogetherExactly(changes: seq<Change>, t: Table, u: Table)
    requires Tidy(changes) && ApplyAll(Downs(changes), t).Done?
    requires SchemaOf(u) == SchemaOf(ApplyAll(Downs(changes), t).value) && ApplyAll(Ups(changes), u).Done?
    ensures SchemaOf(ApplyAll(Ups(changes), u).value) == SchemaOf(t) <==> AllPost(changes, t)
  {
    if Separate(changes) {
      SeparateRedoneExactly(changes, t, u);
      SeparateAddNone(changes);
      assert forall i :: 0 <= i < |changes| ==> (Expected(changes[i], false, t) <==> InPlace(changes[i], t));
    } else {
      FirmRedoneExactly(changes, t, u);
    }
  }
}
