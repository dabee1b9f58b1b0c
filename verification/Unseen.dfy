/** Which damage a replay does not see: downgrades and upgrades that leave the snapshot as
    it was and the schema not, told by the table as it is at head, before the replay. */
module Unseen {
  import opened Schema
  import opened Changes
  import opened Revisions
  import opened Independence
  import opened RoundTrips
  import opened ColumnTrips
  import opened ReplayCheck

  /** Every index name but those excepted survives when the columns are dropped. */
  ghost predicate NamesKept(t: Table, columns: set<string>, but: set<string>) {
    forall n :: n in IndexNames(t) ==>
      || n in but
      || (n in t.indexes && columns !! IndexColumns(t.indexes[n]))
      || (n in UniqueNames(t) && columns !! ConstraintColumns(t.constraints[n]))
  }

  /** What the change is about looks as its upgrade leaves it, as far as a snapshot shows. */
  ghost predicate SeenPlace(c: Change, t: Table) {
    match c
    case Enforce(_) => InPlace(c, t)
    case Relax(_) => InPlace(c, t)
    case Retype(_, _, _) => InPlace(c, t)
    case RenamedIndex(name, newName) =>
      newName in t.indexes || name !in t.indexes || {name, newName} <= UniqueNames(t)
    case AddedColumn(column, spec) =>
      column in t.columns && t.columns[column].typ == spec.typ && t.columns[column].nullable == spec.nullable
    case Backfilled(column, _, _) => column in t.columns && t.columns[column].typ == FLAG.typ && !t.columns[column].nullable
    case _ => true
  }

  /** The table at head for which the change, taken back and made again, shows nothing: less
      than the downgrade expects wherever the snapshot does not look. */
  ghost predicate SeenPost(c: Change, t: Table) {
    SeenPlace(c, t) && (!KeepsColumns(c) ==> NamesKept(t, {c.column}, CreatedBy(c)))
  }

  // ---- views, part by part ----

  ghost predicate SameColumnsSeen(t: Table, u: Table) {
    && t.columns.Keys == u.columns.Keys
    && forall k :: k in t.columns ==> t.columns[k].typ == u.columns[k].typ && t.columns[k].nullable == u.columns[k].nullable
  }

  lemma ViewsAgree(t: Table, u: Table)
    ensures Viewed(t) == Viewed(u) <==> SameColumnsSeen(t, u) && IndexNames(t) == IndexNames(u)
  {
    var v, w := Viewed(t).columns, Viewed(u).columns;
    assert v.Keys == t.columns.Keys && w.Keys == u.columns.Keys;
    if v == w {
      forall k | k in t.columns ensures t.columns[k].typ == u.columns[k].typ && t.columns[k].nullable == u.columns[k].nullable {
        assert v[k] == w[k];
      }
    }
    if SameColumnsSeen(t, u) { assert v == w; }
  }

  lemma ViewsAreSchemas(t: Table)
    ensures Viewed(SchemaOf(t)) == Viewed(t)
  {}

  // ---- one change ----

  lemma TripSeen(c: Change, t: Table)
    requires KeepsColumns(c) && Fits(c, false, t)
    ensures Viewed(Trip(c, false, t)) == Viewed(t) <==> SeenPost(c, t)
    ensures Trip(c, false, t).constraints == t.constraints
  {
    if c.Enforce? || c.Relax? || c.Retype? {
      ColumnSeen(c, t);
      ViewsAgree(Trip(c, false, t), t);
    } else if c.RenamedIndex? {
      RenameSeen(c.name, c.newName, t);
      ViewsAgree(Trip(c, false, t), t);
    } else {
      RestoredSeen(c, t);
    }
  }

  /** An index or a constraint of the same name comes back, whatever its definition was. */
  lemma RestoredSeen(c: Change, t: Table)
    requires c.AddedIndex? || c.RemovedIndex? || c.RemovedConstraint? || c.MergedUnique?
    requires Fits(c, false, t)
    ensures Viewed(Trip(c, false, t)) == Viewed(t) && Trip(c, false, t).constraints == t.constraints
  {
    var t' := Trip(c, false, t);
    match c
    case AddedIndex(name, index) =>
    case RemovedIndex(name, index) => PutAndTake(t.indexes, name, index);
    case RemovedConstraint(name, con) => PutAndTake(t.constraints, name, con);
    case MergedUnique(constraint, index, column) => PutAndTake(t.constraints, constraint, Unique([column]));
    assert t'.indexes.Keys == t.indexes.Keys;
    SameNamesSeen(t', t);
  }

  lemma SameNamesSeen(t: Table, u: Table)
    requires t.columns == u.columns && t.indexes.Keys == u.indexes.Keys && t.constraints == u.constraints
    ensures Viewed(t) == Viewed(u)
  {
    ViewsAgree(t, u);
  }

  lemma ColumnSeen(c: Change, t: Table)
    requires (c.Enforce? || c.Relax? || c.Retype?) && c.column in t.columns
    ensures SameColumnsSeen(Trip(c, false, t), t) <==> Post(c, t)
  {
    var t' := Trip(c, false, t);
    assert t'.columns.Keys == t.columns.Keys;
    assert forall k :: k in t.columns && k != c.column ==> t'.columns[k] == t.columns[k];
  }

  lemma RenameSeen(name: string, newName: string, t: Table)
    requires !(name in t.indexes && newName in t.indexes)
    ensures var t' := Trip(RenamedIndex(name, newName), false, t);
      IndexNames(t') == IndexNames(t) <==> SeenPost(RenamedIndex(name, newName), t)
  {
    var t' := Trip(RenamedIndex(name, newName), false, t);
    if newName in t.indexes || name !in t.indexes {
      TripRename(t, newName, name);
    } else {
      assert t'.indexes.Keys == t.indexes.Keys - {name} + {newName};
      assert UniqueNames(t') == UniqueNames(t);
      if IndexNames(t') == IndexNames(t) {
        assert newName in IndexNames(t') && name in IndexNames(t);
      }
    }
  }

  // ---- separate changes of a table ----

  /** The views agree on a column or on an index name. */
  ghost predicate SeenAt(t: Table, u: Table, slot: Slot) {
    match slot
    case ColumnSlot(k) =>
      && (k in t.columns <==> k in u.columns)
      && (k in t.columns ==> t.columns[k].typ == u.columns[k].typ && t.columns[k].nullable == u.columns[k].nullable)
    case IndexSlot(k) => k in IndexNames(t) <==> k in IndexNames(u)
    case ConstraintSlot(_) => true
  }

  lemma SeenEverywhere(t: Table, u: Table)
    ensures Viewed(t) == Viewed(u) <==> forall slot :: SeenAt(t, u, slot)
  {
    ViewsAgree(t, u);
    if forall slot :: SeenAt(t, u, slot) {
      forall k ensures k in t.columns <==> k in u.columns { assert SeenAt(t, u, ColumnSlot(k)); }
      forall k | k in t.columns ensures t.columns[k].typ == u.columns[k].typ && t.columns[k].nullable == u.columns[k].nullable {
        assert SeenAt(t, u, ColumnSlot(k));
      }
      forall k ensures k in IndexNames(t) <==> k in IndexNames(u) { assert SeenAt(t, u, IndexSlot(k)); }
      assert t.columns.Keys == u.columns.Keys && IndexNames(t) == IndexNames(u);
    }
  }

  lemma SeenThrough(t: Table, u: Table, v: Table, slot: Slot)
    requires SameAt(t, u, slot) && t.constraints == u.constraints
    ensures SeenAt(t, v, slot) <==> SeenAt(u, v, slot)
    ensures SeenAt(v, t, slot) <==> SeenAt(v, u, slot)
  {
    assert UniqueNames(t) == UniqueNames(u);
  }

  lemma NestedKeepsConstraints(cs: seq<Change>, t: Table)
    requires Separate(cs) && AllFit(cs, false, t)
    ensures Nested(cs, false, t).constraints == t.constraints
  {
    var t' := Nested(cs, false, t);
    forall k ensures SameAt(t, t', ConstraintSlot(k)) {
      if i :| 0 <= i < |cs| && ConstraintSlot(k) in Slots(cs[i]) {
        NestedEach(cs, false, t, i);
        TripSeen(cs[i], t);
        assert SameAt(t', Trip(cs[i], false, t), ConstraintSlot(k));
      } else {
        NestedElsewhere(cs, false, t, {ConstraintSlot(k)});
      }
    }
    assert forall k :: (k in t.constraints <==> k in t'.constraints) by {
      forall k ensures k in t.constraints <==> k in t'.constraints { assert SameAt(t, t', ConstraintSlot(k)); }
    }
    forall k | k in t.constraints ensures t'.constraints[k] == t.constraints[k] { assert SameAt(t, t', ConstraintSlot(k)); }
  }

  ghost predicate AllSeenPlace(cs: seq<Change>, t: Table) {
    forall i :: 0 <= i < |cs| ==> SeenPlace(cs[i], t)
  }

  /** Everything the changes are about looks as their upgrades leave it, and no index name is
      lost with the columns that they add. */
  ghost predicate AllSeen(cs: seq<Change>, t: Table) {
    AllSeenPlace(cs, t) && NamesKept(t, AddedIn(cs), CreatedIn(cs))
  }

  /** In the slots of one of the changes the nested trip is seen as that change's own. */
  lemma NestedSeenAs(cs: seq<Change>, t: Table, i: nat, slot: Slot)
    requires Separate(cs) && AllFit(cs, false, t) && i < |cs| && slot in Slots(cs[i])
    ensures SeenAt(Nested(cs, false, t), t, slot) <==> SeenAt(Trip(cs[i], false, t), t, slot)
  {
    NestedEach(cs, false, t, i);
    NestedKeepsConstraints(cs, t);
    TripSeen(cs[i], t);
    assert SameAt(Nested(cs, false, t), Trip(cs[i], false, t), slot);
    SeenThrough(Nested(cs, false, t), Trip(cs[i], false, t), t, slot);
  }

  lemma TripSeenElsewhere(c: Change, t: Table, slot: Slot)
    requires KeepsColumns(c) && Fits(c, false, t) && slot !in Slots(c)
    ensures SeenAt(Trip(c, false, t), t, slot)
  {
    TripElsewhere(c, false, t, slot);
    TripSeen(c, t);
    SeenThrough(t, Trip(c, false, t), t, slot);
  }

  lemma NestedSeenExactly(cs: seq<Change>, t: Table)
    requires Separate(cs) && AllFit(cs, false, t)
    ensures Viewed(Nested(cs, false, t)) == Viewed(t) <==> AllSeenPlace(cs, t)
  {
    var t' := Nested(cs, false, t);
    SeenEverywhere(t', t);
    if Viewed(t') == Viewed(t) {
      forall i | 0 <= i < |cs| ensures SeenPlace(cs[i], t) {
        forall slot ensures SeenAt(Trip(cs[i], false, t), t, slot) {
          if slot in Slots(cs[i]) { NestedSeenAs(cs, t, i, slot); } else { TripSeenElsewhere(cs[i], t, slot); }
        }
        SeenEverywhere(Trip(cs[i], false, t), t);
        TripSeen(cs[i], t);
      }
    }
    if AllSeenPlace(cs, t) {
      forall slot ensures SeenAt(t', t, slot) { NestedSeenSame(cs, t, slot); }
    }
  }

  lemma NestedSeenSame(cs: seq<Change>, t: Table, slot: Slot)
    requires Separate(cs) && AllFit(cs, false, t) && AllSeenPlace(cs, t)
    ensures SeenAt(Nested(cs, false, t), t, slot)
  {
    if i :| 0 <= i < |cs| && slot in Slots(cs[i]) {
      NestedSeenAs(cs, t, i, slot);
      TripSeen(cs[i], t);
      SeenEverywhere(Trip(cs[i], false, t), t);
    } else {
      NestedElsewhere(cs, false, t, {slot});
      NestedKeepsConstraints(cs, t);
      assert SameAt(t, Nested(cs, false, t), slot);
      SeenThrough(t, Nested(cs, false, t), t, slot);
    }
  }

  lemma SeenSchema(changes: seq<Change>, t: Table)
    requires Separate(changes)
    ensures AllSeenPlace(Reversed(changes), SchemaOf(t)) <==> AllSeenPlace(changes, t)
  {
    ReversedSeparate(changes);
    forall i | 0 <= i < |changes| ensures SeenPlace(changes[i], t) <==> SeenPlace(changes[i], SchemaOf(t)) {}
    forall i | 0 <= i < |changes| ensures Reversed(changes)[i] == changes[|changes| - 1 - i] { ReversedAt(changes, i); }
  }

  lemma SeparateSeenExactly(changes: seq<Change>, t: Table, u: Table)
    requires Separate(changes) && ApplyAll(Downs(changes), t).Done?
    requires SchemaOf(u) == SchemaOf(ApplyAll(Downs(changes), t).value) && ApplyAll(Ups(changes), u).Done?
    ensures Viewed(ApplyAll(Ups(changes), u).value) == Viewed(t) <==> AllSeenPlace(changes, t)
  {
    DownsNest(changes, t, u);
    ReversedSeparate(changes);
    ExpectedSchema(changes, t);
    SeenSchema(changes, t);
    NestedSeenExactly(Reversed(changes), SchemaOf(t));
    ViewsAreSchemas(ApplyAll(Ups(changes), u).value);
    ViewsAreSchemas(t);
  }

  // ---- changes that add columns ----

  lemma ColumnSeenExactly(c: Change, t: Table, k: string, columns: set<string>)
    requires ColumnSlot(k) in Slots(c) && Found(c, t, columns)
    ensures SeenAt(Trip(c, false, t), t, ColumnSlot(k)) <==> SeenPlace(c, t)
  {}

  lemma ColumnLike(t: Table, u: Table, v: Table, k: string)
    requires SameAt(t, u, ColumnSlot(k))
    ensures SeenAt(t, v, ColumnSlot(k)) <==> SeenAt(u, v, ColumnSlot(k))
    ensures SeenAt(v, t, ColumnSlot(k)) <==> SeenAt(v, u, ColumnSlot(k))
  {}

  /** The columns look the same exactly when those that the changes name do. */
  lemma ColumnsSeen(cs: seq<Change>, t: Table)
    requires Firm(cs) && AllFound(cs, t)
    ensures SameColumnsSeen(DownUp(cs, t), t) <==> AllSeenPlace(cs, t)
  {
    var d := DownUp(cs, t);
    forall i, k | 0 <= i < |cs| && ColumnSlot(k) in Slots(cs[i]) ensures SeenAt(d, t, ColumnSlot(k)) <==> SeenPlace(cs[i], t) {
      DownUpOwn(cs, t, i, ColumnSlot(k));
      ColumnSeenExactly(cs[i], t, k, AddedIn(cs));
      ColumnLike(d, Trip(cs[i], false, t), t, k);
    }
    forall k | !Owned(cs, ColumnSlot(k)) ensures SeenAt(d, t, ColumnSlot(k)) {
      DownUpElsewhere(cs, t, ColumnSlot(k));
    }
    if SameColumnsSeen(d, t) {
      forall i | 0 <= i < |cs| ensures SeenPlace(cs[i], t) {
        if k :| ColumnSlot(k) in Slots(cs[i]) { assert SeenAt(d, t, ColumnSlot(k)); }
      }
    }
    if AllSeenPlace(cs, t) {
      forall k ensures SeenAt(d, t, ColumnSlot(k)) {
        if Owned(cs, ColumnSlot(k)) { var i :| 0 <= i < |cs| && ColumnSlot(k) in Slots(cs[i]); }
      }
      ColumnsEverywhere(d, t);
    }
  }

  lemma ColumnsEverywhere(t: Table, u: Table)
    requires forall k :: SeenAt(t, u, ColumnSlot(k))
    ensures SameColumnsSeen(t, u)
  {
    forall k ensures k in t.columns <==> k in u.columns { assert SeenAt(t, u, ColumnSlot(k)); }
    forall k | k in t.columns ensures t.columns[k].typ == u.columns[k].typ && t.columns[k].nullable == u.columns[k].nullable {
      assert SeenAt(t, u, ColumnSlot(k));
    }
  }

  /** An index is there again if it is created, or if it was not over an added column. */
  lemma IndexBack(cs: seq<Change>, t: Table, n: string)
    requires Firm(cs) && AllFound(cs, t)
    ensures n in DownUp(cs, t).indexes <==> n in CreatedIn(cs) || (n in t.indexes && !Over(t, AddedIn(cs), IndexSlot(n)))
    ensures n in CreatedIn(cs) ==> n in t.indexes
  {
    var slot := IndexSlot(n);
    CreatedAt(cs, n);
    if Owned(cs, slot) {
      var i :| 0 <= i < |cs| && slot in Slots(cs[i]);
      assert Found(cs[i], t, AddedIn(cs));
      DownUpOwn(cs, t, i, slot);
      forall j | 0 <= j < |cs| && n in CreatedBy(cs[j]) ensures j == i { OneOwner(cs, i, j, slot); }
    } else {
      if n in CreatedIn(cs) { CreatedOwned(cs, n); }
      DownUpElsewhere(cs, t, slot);
    }
  }

  lemma OneOwner(cs: seq<Change>, i: nat, j: nat, slot: Slot)
    requires Firm(cs) && i < |cs| && j < |cs| && slot in Slots(cs[i])
    requires slot in Slots(cs[j]) || (slot.IndexSlot? && slot.name in CreatedBy(cs[j]))
    ensures i == j
  {
    assert slot in Slots(cs[j]);
  }

  /** A constraint is there again if it was not over an added column. */
  lemma ConstraintBack(cs: seq<Change>, t: Table, n: string)
    requires Firm(cs) && AllFound(cs, t)
    ensures n in DownUp(cs, t).constraints <==> n in t.constraints && !Over(t, AddedIn(cs), ConstraintSlot(n))
    ensures n in DownUp(cs, t).constraints ==> DownUp(cs, t).constraints[n] == t.constraints[n]
  {
    var slot := ConstraintSlot(n);
    if Owned(cs, slot) {
      var i :| 0 <= i < |cs| && slot in Slots(cs[i]);
      assert Found(cs[i], t, AddedIn(cs));
      DownUpOwn(cs, t, i, slot);
    } else {
      DownUpElsewhere(cs, t, slot);
    }
  }

  lemma NamesSeen(cs: seq<Change>, t: Table)
    requires Firm(cs) && AllFound(cs, t)
    ensures IndexNames(DownUp(cs, t)) == IndexNames(t) <==> NamesKept(t, AddedIn(cs), CreatedIn(cs))
  {
    var d := DownUp(cs, t);
    forall n
      ensures n in IndexNames(d) <==>
        || n in CreatedIn(cs)
        || (n in t.indexes && AddedIn(cs) !! IndexColumns(t.indexes[n]))
        || (n in UniqueNames(t) && AddedIn(cs) !! ConstraintColumns(t.constraints[n]))
      ensures n in CreatedIn(cs) ==> n in IndexNames(t)
    {
      IndexBack(cs, t, n);
      ConstraintBack(cs, t, n);
    }
    assert IndexNames(d) <= IndexNames(t);
  }

  lemma FirmSeenExactly(changes: seq<Change>, t: Table, u: Table)
    requires Firm(changes) && ApplyAll(Downs(changes), t).Done?
    requires SchemaOf(u) == SchemaOf(ApplyAll(Downs(changes), t).value) && ApplyAll(Ups(changes), u).Done?
    ensures Viewed(ApplyAll(Ups(changes), u).value) == Viewed(t) <==> AllSeen(changes, t)
  {
    var s := SchemaOf(t);
    DownsUps(changes, t, u);
    ColumnsSeen(changes, s);
    NamesSeen(changes, s);
    ViewsAgree(DownUp(changes, s), s);
    ViewsAreSchemas(ApplyAll(Ups(changes), u).value);
    ViewsAreSchemas(t);
    AllSeenSchema(changes, t);
  }

  lemma AllSeenSchema(cs: seq<Change>, t: Table)
    ensures AllSeen(cs, SchemaOf(t)) <==> AllSeen(cs, t)
  {
    var s := SchemaOf(t);
    assert IndexNames(s) == IndexNames(t) && UniqueNames(s) == UniqueNames(t);
    forall i | 0 <= i < |cs| ensures SeenPlace(cs[i], s) <==> SeenPlace(cs[i], t) {}
    assert NamesKept(s, AddedIn(cs), CreatedIn(cs)) <==> NamesKept(t, AddedIn(cs), CreatedIn(cs));
  }

  // ---- any such list, and one change ----

  /** After the changes are taken back and made again, the snapshot shows the same table
      exactly when the table at head met the weaker expectation of them all. */
  lemma SeenTogetherExactly(changes: seq<Change>, t: Table, u: Table)
    requires Tidy(changes) && ApplyAll(Downs(changes), t).Done?
    requires SchemaOf(u) == SchemaOf(ApplyAll(Downs(changes), t).value) && ApplyAll(Ups(changes), u).Done?
    ensures Viewed(ApplyAll(Ups(changes), u).value) == Viewed(t) <==> AllSeen(changes, t)
  {
    if Separate(changes) {
      SeparateSeenExactly(changes, t, u);
      SeparateAddNone(changes);
      assert NamesKept(t, {}, CreatedIn(changes));
    } else {
      FirmSeenExactly(changes, t, u);
    }
  }

  lemma AloneIsTidy(c: Change, t: Table)
    requires Sensible(c)
    ensures Tidy([c]) && Ups([c]) == Up(c) && Downs([c]) == Down(c)
    ensures AllSeen([c], t) <==> SeenPost(c, t)
  {
    Alone(c);
    assert [c][..0] == [];
    assert AddedIn([c]) == {} + AddedBy(c) && CreatedIn([c]) == {} + CreatedBy(c);
    assert AllSeenPlace([c], t) <==> SeenPlace([c][0], t);
  }

  lemma SeenExactly(c: Change, t: Table, u: Table)
    requires Sensible(c) && ApplyAll(Down(c), t).Done?
    requires SchemaOf(u) == SchemaOf(ApplyAll(Down(c), t).value) && ApplyAll(Up(c), u).Done?
    ensures Viewed(ApplyAll(Up(c), u).value) == Viewed(t) <==> SeenPost(c, t)
  {
    AloneIsTidy(c, t);
    SeenTogetherExactly([c], t, u);
  }

  /** Going down and up damages the schema and shows nothing exactly when the table at head
      met the weaker expectation and not the full one. */
  lemma UnseenDamageExactly(c: Change, t: Table, u: Table)
    requires Sensible(c) && ApplyAll(Down(c), t).Done?
    requires SchemaOf(u) == SchemaOf(ApplyAll(Down(c), t).value) && ApplyAll(Up(c), u).Done?
    ensures var t' := ApplyAll(Up(c), u).value;
      Viewed(t') == Viewed(t) && SchemaOf(t') != SchemaOf(t) <==> SeenPost(c, t) && !Post(c, t)
  {
    SeenExactly(c, t, u);
    RedoneExactly(c, t, u);
  }
}
