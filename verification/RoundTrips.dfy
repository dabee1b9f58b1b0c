/** Separate changes made and taken back, or taken back and made again: every change comes
    out as it would alone, so the table is restored exactly when each of them is. */
module RoundTrips {
  import opened Schema
  import opened Changes
  import opened Revisions
  import opened Independence

  // ---- slot by slot ----

  /** The tables agree on a column, an index or a constraint, there or not. */
  ghost predicate SameAt(t: Table, u: Table, slot: Slot) {
    match slot
    case ColumnSlot(k) => (k in t.columns <==> k in u.columns) && (k in t.columns ==> t.columns[k] == u.columns[k])
    case IndexSlot(k) => (k in t.indexes <==> k in u.indexes) && (k in t.indexes ==> t.indexes[k] == u.indexes[k])
    case ConstraintSlot(k) =>
      (k in t.constraints <==> k in u.constraints) && (k in t.constraints ==> t.constraints[k] == u.constraints[k])
  }

  ghost predicate SameOn(t: Table, u: Table, slots: set<Slot>) {
    forall slot :: slot in slots ==> SameAt(t, u, slot)
  }

  lemma SameEverywhere(t: Table, u: Table)
    ensures SchemaOf(t) == SchemaOf(u) <==> forall slot :: SameAt(t, u, slot)
  {
    if forall slot :: SameAt(t, u, slot) {
      forall k ensures k in t.columns <==> k in u.columns { assert SameAt(t, u, ColumnSlot(k)); }
      forall k ensures k in t.indexes <==> k in u.indexes { assert SameAt(t, u, IndexSlot(k)); }
      forall k ensures k in t.constraints <==> k in u.constraints { assert SameAt(t, u, ConstraintSlot(k)); }
      forall k | k in t.columns ensures t.columns[k] == u.columns[k] { assert SameAt(t, u, ColumnSlot(k)); }
      forall k | k in t.indexes ensures t.indexes[k] == u.indexes[k] { assert SameAt(t, u, IndexSlot(k)); }
      forall k | k in t.constraints ensures t.constraints[k] == u.constraints[k] { assert SameAt(t, u, ConstraintSlot(k)); }
      assert t.columns == u.columns && t.indexes == u.indexes && t.constraints == u.constraints;
    }
  }

  /** A change leaves alone what it does not name. */
  lemma TurnedElsewhere(c: Change, up: bool, t: Table, slot: Slot)
    requires slot !in Slots(c) && KeepsColumns(c)
    ensures SameAt(t, Turned(c, up, t), slot)
  {}

  lemma ColumnTurnedLocal(c: Change, up: bool, t: Table, u: Table)
    requires c.Enforce? || c.Relax? || c.Retype?
    requires SameAt(t, u, ColumnSlot(c.column))
    ensures SameAt(Turned(c, up, t), Turned(c, up, u), ColumnSlot(c.column))
  {}

  lemma RenamedLocal(t: Table, u: Table, name: string, newName: string)
    requires SameAt(t, u, IndexSlot(name)) && SameAt(t, u, IndexSlot(newName))
    ensures SameAt(Renamed(t, name, newName), Renamed(u, name, newName), IndexSlot(name))
    ensures SameAt(Renamed(t, name, newName), Renamed(u, name, newName), IndexSlot(newName))
  {}

  lemma MergeTurnedLocal(c: Change, up: bool, t: Table, u: Table)
    requires c.MergedUnique? && SameAt(t, u, IndexSlot(c.indexName)) && SameAt(t, u, ConstraintSlot(c.constraintName))
    ensures SameAt(Turned(c, up, t), Turned(c, up, u), IndexSlot(c.indexName))
    ensures SameAt(Turned(c, up, t), Turned(c, up, u), ConstraintSlot(c.constraintName))
  {}

  /** And what it does depends only on what it names. */
  lemma TurnedLocal(c: Change, up: bool, t: Table, u: Table)
    requires KeepsColumns(c) && SameOn(t, u, Slots(c))
    ensures SameOn(Turned(c, up, t), Turned(c, up, u), Slots(c))
  {
    assert forall slot :: slot in Slots(c) ==> SameAt(t, u, slot);
    if c.RenamedIndex? {
      RenamedLocal(t, u, c.name, c.newName);
      RenamedLocal(t, u, c.newName, c.name);
    } else if c.MergedUnique? {
      MergeTurnedLocal(c, up, t, u);
    } else if c.Enforce? || c.Relax? || c.Retype? {
      ColumnTurnedLocal(c, up, t, u);
    }
  }

  lemma FitsLocal(c: Change, up: bool, t: Table, u: Table)
    requires KeepsColumns(c) && SameOn(t, u, Slots(c))
    ensures Fits(c, up, t) <==> Fits(c, up, u)
  {
    assert forall slot :: slot in Slots(c) ==> SameAt(t, u, slot);
  }

  // ---- one change there and back ----

  lemma TripElsewhere(c: Change, up: bool, t: Table, slot: Slot)
    requires slot !in Slots(c) && KeepsColumns(c)
    ensures SameAt(t, Trip(c, up, t), slot)
  {
    TurnedElsewhere(c, up, t, slot);
    TurnedElsewhere(c, !up, Turned(c, up, t), slot);
  }

  lemma TripLocal(c: Change, up: bool, t: Table, u: Table)
    requires KeepsColumns(c) && SameOn(t, u, Slots(c))
    ensures SameOn(Trip(c, up, t), Trip(c, up, u), Slots(c))
  {
    TurnedLocal(c, up, t, u);
    TurnedLocal(c, !up, Turned(c, up, t), Turned(c, up, u));
  }

  // ---- separate changes, nested ----

  /** The changes turned in order, then turned back in reverse order. */
  function Nested(cs: seq<Change>, up: bool, t: Table): Table {
    if cs == [] then t
    else Turned(cs[0], !up, Nested(cs[1..], up, Turned(cs[0], up, t)))
  }

  lemma SameOnThrough(t: Table, u: Table, v: Table, slots: set<Slot>)
    requires SameOn(t, u, slots) && SameOn(u, v, slots)
    ensures SameOn(t, v, slots)
  {
    forall slot | slot in slots ensures SameAt(t, v, slot) { assert SameAt(t, u, slot) && SameAt(u, v, slot); }
  }

  lemma TurnedOn(c: Change, up: bool, t: Table, slots: set<Slot>)
    requires KeepsColumns(c) && slots !! Slots(c)
    ensures SameOn(t, Turned(c, up, t), slots)
  {
    forall slot | slot in slots ensures SameAt(t, Turned(c, up, t), slot) { TurnedElsewhere(c, up, t, slot); }
  }

  lemma SeparateTail(cs: seq<Change>)
    requires Separate(cs) && cs != []
    ensures Separate(cs[1..]) && KeepsColumns(cs[0])
    ensures forall i :: 0 <= i < |cs[1..]| ==> cs[1..][i] == cs[i + 1] && Slots(cs[0]) !! Slots(cs[i + 1])
  {
    var rest := cs[1..];
    forall i | 0 <= i < |rest| ensures KeepsColumns(rest[i]) { assert rest[i] == cs[i + 1]; }
    forall i, j | 0 <= i < j < |rest| ensures Slots(rest[i]) !! Slots(rest[j]) {
      assert Slots(cs[i + 1]) !! Slots(cs[j + 1]);
    }
  }

  /** Nothing outside the changes' slots is touched. */
  lemma {:induction false} NestedElsewhere(cs: seq<Change>, up: bool, t: Table, slots: set<Slot>)
    requires Separate(cs) && forall i :: 0 <= i < |cs| ==> slots !! Slots(cs[i])
    ensures SameOn(t, Nested(cs, up, t), slots)
  {
    if cs != [] {
      SeparateTail(cs);
      var t1 := Turned(cs[0], up, t);
      var inner := Nested(cs[1..], up, t1);
      NestedElsewhere(cs[1..], up, t1, slots);
      TurnedOn(cs[0], up, t, slots);
      TurnedOn(cs[0], !up, inner, slots);
      SameOnThrough(t, t1, inner, slots);
      SameOnThrough(t, inner, Nested(cs, up, t), slots);
    }
  }

  /** Every change comes out as if it alone had gone there and back. */
  lemma {:induction false} NestedEach(cs: seq<Change>, up: bool, t: Table, i: nat)
    requires Separate(cs) && i < |cs|
    ensures SameOn(Nested(cs, up, t), Trip(cs[i], up, t), Slots(cs[i]))
  {
    SeparateTail(cs);
    var c, rest := cs[0], cs[1..];
    var t1 := Turned(c, up, t);
    var inner := Nested(rest, up, t1);
    if i == 0 {
      NestedElsewhere(rest, up, t1, Slots(c));
      TurnedLocal(c, !up, t1, inner);
      SameOnSymmetric(Trip(c, up, t), Nested(cs, up, t), Slots(c));
    } else {
      var d := rest[i - 1];
      NestedEach(rest, up, t1, i - 1);
      TurnedOn(c, !up, inner, Slots(d));
      TurnedOn(c, up, t, Slots(d));
      TripLocal(d, up, t, t1);
      SameOnSymmetric(inner, Nested(cs, up, t), Slots(d));
      SameOnSymmetric(Trip(d, up, t), Trip(d, up, t1), Slots(d));
      SameOnThrough(Nested(cs, up, t), inner, Trip(d, up, t1), Slots(d));
      SameOnThrough(Nested(cs, up, t), Trip(d, up, t1), Trip(d, up, t), Slots(d));
    }
  }

  lemma SameOnSymmetric(t: Table, u: Table, slots: set<Slot>)
    requires SameOn(t, u, slots)
    ensures SameOn(u, t, slots)
  {
    forall slot | slot in slots ensures SameAt(u, t, slot) { assert SameAt(t, u, slot); }
  }

  ghost predicate AllFit(cs: seq<Change>, up: bool, t: Table) {
    forall i :: 0 <= i < |cs| ==> Fits(cs[i], up, t)
  }

  ghost predicate AllExpected(cs: seq<Change>, up: bool, t: Table) {
    forall i :: 0 <= i < |cs| ==> Expected(cs[i], up, t)
  }

  lemma {:induction false} NestedKeepsRows(cs: seq<Change>, up: bool, t: Table)
    ensures Nested(cs, up, t).rows == t.rows
    ensures SchemaOf(Nested(cs, up, t)) == Nested(cs, up, SchemaOf(t))
  {
    if cs != [] {
      TurnedKeepsRows(cs[0], up, t);
      NestedKeepsRows(cs[1..], up, Turned(cs[0], up, t));
      TurnedKeepsRows(cs[0], !up, Nested(cs[1..], up, Turned(cs[0], up, t)));
    }
  }

  /** A trip that restores the change's slots restores the table. */
  lemma TripRestores(c: Change, up: bool, t: Table)
    requires KeepsColumns(c) && SameOn(t, Trip(c, up, t), Slots(c))
    ensures Trip(c, up, t) == t
  {
    forall slot ensures SameAt(t, Trip(c, up, t), slot) {
      if slot !in Slots(c) { TripElsewhere(c, up, t, slot); }
    }
    SameEverywhere(t, Trip(c, up, t));
    TurnedKeepsRows(c, up, t);
    TurnedKeepsRows(c, !up, Turned(c, up, t));
  }

  /** The table is restored exactly when every change found it as expected. */
  lemma NestedExactly(cs: seq<Change>, up: bool, t: Table)
    requires Separate(cs) && AllFit(cs, up, t)
    ensures Nested(cs, up, t) == t <==> AllExpected(cs, up, t)
  {
    var t' := Nested(cs, up, t);
    if t' == t {
      forall i | 0 <= i < |cs| ensures Expected(cs[i], up, t) {
        NestedEach(cs, up, t, i);
        TripRestores(cs[i], up, t);
        TripExactly(cs[i], up, t);
      }
    }
    if AllExpected(cs, up, t) {
      forall slot ensures SameAt(t, t', slot) { NestedSame(cs, up, t, slot); }
      SameEverywhere(t, t');
      NestedKeepsRows(cs, up, t);
    }
  }

  lemma NestedSame(cs: seq<Change>, up: bool, t: Table, slot: Slot)
    requires Separate(cs) && AllFit(cs, up, t) && AllExpected(cs, up, t)
    ensures SameAt(t, Nested(cs, up, t), slot)
  {
    if i :| 0 <= i < |cs| && slot in Slots(cs[i]) {
      NestedEach(cs, up, t, i);
      TripExactly(cs[i], up, t);
      assert SameAt(Nested(cs, up, t), Trip(cs[i], up, t), slot);
    } else {
      NestedElsewhere(cs, up, t, {slot});
      assert SameAt(t, Nested(cs, up, t), slot);
    }
  }

  // ---- a table's upgrade and downgrade ----

  lemma {:induction false} UpsNest(changes: seq<Change>, t: Table)
    requires Separate(changes) && ApplyAll(Ups(changes), t).Done?
    requires ApplyAll(Downs(changes), ApplyAll(Ups(changes), t).value).Done?
    ensures ApplyAll(Downs(changes), ApplyAll(Ups(changes), t).value) == Done(Nested(changes, true, t))
    ensures AllFit(changes, true, t)
  {
    if changes != [] {
      var c, rest := changes[0], changes[1..];
      SeparateTail(changes);
      ApplySplit(Up(c), Ups(rest), t);
      TurnedIs(c, true, t);
      var t1 := Turned(c, true, t);
      ApplySplit(Downs(rest), Down(c), ApplyAll(Ups(rest), t1).value);
      UpsNest(rest, t1);
      TurnedIs(c, false, Nested(rest, true, t1));
      forall i | 0 <= i < |changes| ensures Fits(changes[i], true, t) {
        if i > 0 {
          assert changes[i] == rest[i - 1];
          TurnedOn(c, true, t, Slots(changes[i]));
          FitsLocal(changes[i], true, t, t1);
        }
      }
    }
  }

  function Reversed(cs: seq<Change>): seq<Change> {
    if cs == [] then [] else [cs[|cs| - 1]] + Reversed(cs[..|cs| - 1])
  }

  lemma {:induction false} ReversedAt(cs: seq<Change>, i: nat)
    requires i < |cs|
    ensures |Reversed(cs)| == |cs| && Reversed(cs)[i] == cs[|cs| - 1 - i]
  {
    if |cs| > 1 { ReversedAt(cs[..|cs| - 1], if i == 0 then 0 else i - 1); }
  }

  lemma ReversedSeparate(cs: seq<Change>)
    requires Separate(cs)
    ensures |Reversed(cs)| == |cs| && Separate(Reversed(cs))
    ensures forall i :: 0 <= i < |cs| ==> cs[i] == Reversed(cs)[|cs| - 1 - i]
  {
    if cs != [] { ReversedAt(cs, 0); }
    forall i | 0 <= i < |cs| ensures Reversed(cs)[i] == cs[|cs| - 1 - i] { ReversedAt(cs, i); }
    forall i | 0 <= i < |cs| ensures cs[i] == Reversed(cs)[|cs| - 1 - i] { ReversedAt(cs, |cs| - 1 - i); }
    forall i, j | 0 <= i < j < |cs| ensures Slots(Reversed(cs)[i]) !! Slots(Reversed(cs)[j]) {
      assert Slots(cs[|cs| - 1 - j]) !! Slots(cs[|cs| - 1 - i]);
    }
  }

  lemma SeparateFront(cs: seq<Change>)
    requires Separate(cs) && cs != []
    ensures Separate(cs[..|cs| - 1]) && KeepsColumns(cs[|cs| - 1])
    ensures forall i :: 0 <= i < |cs| - 1 ==> Slots(cs[|cs| - 1]) !! Slots(cs[i])
  {
    var front := cs[..|cs| - 1];
    forall i, j | 0 <= i < j < |front| ensures Slots(front[i]) !! Slots(front[j]) {
      assert Slots(cs[i]) !! Slots(cs[j]);
    }
  }

  /** `u` has the schema the downgrades left. */
  lemma {:induction false} DownsNest(changes: seq<Change>, t: Table, u: Table)
    requires Separate(changes) && ApplyAll(Downs(changes), t).Done?
    requires SchemaOf(u) == SchemaOf(ApplyAll(Downs(changes), t).value) && ApplyAll(Ups(changes), u).Done?
    ensures SchemaOf(ApplyAll(Ups(changes), u).value) == Nested(Reversed(changes), false, SchemaOf(t))
    ensures AllFit(changes, false, t)
    decreases |changes|
  {
    if changes != [] {
      var front, last := changes[..|changes| - 1], changes[|changes| - 1];
      var t1, u1 := LastChange(changes, t, u);
      SeparateFront(changes);
      DownsNest(front, t1, u);
      TurnedIs(last, false, t);
      TurnedIs(last, true, u1);
      TurnedKeepsRows(last, false, t);
      TurnedKeepsRows(last, true, u1);
      assert Reversed(changes)[1..] == Reversed(front);
      forall i | 0 <= i < |changes| ensures Fits(changes[i], false, t) {
        if i < |changes| - 1 {
          assert changes[i] == front[i];
          TurnedOn(last, false, t, Slots(changes[i]));
          FitsLocal(changes[i], false, t, t1);
        }
      }
    }
  }

  lemma {:induction false} AllPreIsPreAll(changes: seq<Change>, t: Table)
    requires Separate(changes) && AllExpected(changes, true, t)
    ensures PreAll(changes, t)
  {
    if changes != [] {
      var c, rest := changes[0], changes[1..];
      SeparateTail(changes);
      if ApplyAll(Up(c), t).Done? {
        var t1 := ApplyAll(Up(c), t).value;
        forall i | 0 <= i < |rest| ensures Expected(rest[i], true, t1) {
          assert Expected(changes[i + 1], true, t);
          OthersUnaffected(c, rest[i], t);
        }
        AllPreIsPreAll(rest, t1);
      }
    }
  }

  /** Separate changes of a table are undone by the downgrade exactly when every one of them
      found the table as expected. */
  lemma UndoneTogetherExactly(changes: seq<Change>, t: Table)
    requires WellFormed(t) && Separate(changes) && ApplyAll(Ups(changes), t).Done?
    ensures ApplyAll(Downs(changes), ApplyAll(Ups(changes), t).value) == Done(t) <==> AllExpected(changes, true, t)
  {
    if AllExpected(changes, true, t) {
      AllPreIsPreAll(changes, t);
      UndoneAll(changes, t);
    } else if ApplyAll(Downs(changes), ApplyAll(Ups(changes), t).value).Done? {
      UpsNest(changes, t);
      NestedExactly(changes, true, t);
    }
  }

  lemma OneSchema(c: Change, t: Table)
    requires KeepsColumns(c)
    ensures Fits(c, false, t) <==> Fits(c, false, SchemaOf(t))
    ensures Expected(c, false, t) <==> Expected(c, false, SchemaOf(t))
  {}

  lemma ExpectedSchema(changes: seq<Change>, t: Table)
    requires Separate(changes)
    ensures AllFit(Reversed(changes), false, SchemaOf(t)) <==> AllFit(changes, false, t)
    ensures AllExpected(Reversed(changes), false, SchemaOf(t)) <==> AllExpected(changes, false, t)
  {
    ReversedSeparate(changes);
    forall i | 0 <= i < |changes|
      ensures (Fits(changes[i], false, t) <==> Fits(changes[i], false, SchemaOf(t)))
      ensures (Expected(changes[i], false, t) <==> Expected(changes[i], false, SchemaOf(t)))
    {
      OneSchema(changes[i], t);
    }
    forall i | 0 <= i < |changes| ensures Reversed(changes)[i] == changes[|changes| - 1 - i] { ReversedAt(changes, i); }
  }

  /** And they are redone, on the schema, exactly when the downgrade found every one as expected. */
  lemma SeparateRedoneExactly(changes: seq<Change>, t: Table, u: Table)
    requires Separate(changes) && ApplyAll(Downs(changes), t).Done?
    requires SchemaOf(u) == SchemaOf(ApplyAll(Downs(changes), t).value) && ApplyAll(Ups(changes), u).Done?
    ensures SchemaOf(ApplyAll(Ups(changes), u).value) == SchemaOf(t) <==> AllExpected(changes, false, t)
  {
    DownsNest(changes, t, u);
    ReversedSeparate(changes);
    ExpectedSchema(changes, t);
    NestedExactly(Reversed(changes), false, SchemaOf(t));
  }
}
