/** Turning a handler's return value into plain data before the session is committed. */
module Serialization {
  import opened Options

  /** Values as far as `materialize` tells them apart. `Foreign` is any other object,
      `Mapping` a mapping that is not a dict, `Group` a set or frozenset in iteration order. */
  datatype Value =
    | Absent
    | Scalar(text: string)
    | Foreign(name: string)
    | Row(columns: seq<Entry>)
    | Dict(entries: seq<Entry>)
    | Mapping(entries: seq<Entry>)
    | List(items: seq<Value>)
    | Tuple(items: seq<Value>)
    | Group(items: seq<Value>)

  datatype Entry = Entry(key: string, value: Value)

  /** A row becomes a dict of its column values, which are taken as they are. */
  function Materialize(v: Value): Value
    decreases v, 1
  {
    match v
    case Row(columns) => Dict(columns)
    case Dict(entries) => Dict(MaterializeEntries(entries))
    case Mapping(entries) => Dict(MaterializeEntries(entries))
    case List(items) => List(MaterializeAll(items))
    case Tuple(items) => List(MaterializeAll(items))
    case Group(items) => List(MaterializeAll(items))
    case _ => v
  }

  function MaterializeAll(vs: seq<Value>): seq<Value>
    decreases vs, 0
  {
    if vs == [] then [] else [Materialize(vs[0])] + MaterializeAll(vs[1..])
  }

  function MaterializeEntries(es: seq<Entry>): seq<Entry>
    decreases es, 0
  {
    if es == [] then [] else [Entry(es[0].key, Materialize(es[0].value))] + MaterializeEntries(es[1..])
  }

  /** Every part of `v`, itself included, that is not inside a row's column. */
  function Reached(v: Value): seq<Value>
    decreases v, 1
  {
    [v] +
    match v
    case Dict(entries) => ReachedEntries(entries)
    case Mapping(entries) => ReachedEntries(entries)
    case List(items) => ReachedAll(items)
    case Tuple(items) => ReachedAll(items)
    case Group(items) => ReachedAll(items)
    case _ => []
  }

  function ReachedAll(vs: seq<Value>): seq<Value>
    decreases vs, 0
  {
    if vs == [] then [] else Reached(vs[0]) + ReachedAll(vs[1..])
  }

  function ReachedEntries(es: seq<Entry>): seq<Value>
    decreases es, 0
  {
    if es == [] then [] else Reached(es[0].value) + ReachedEntries(es[1..])
  }

  /** No row anywhere outside columns. */
  ghost predicate RowFree(v: Value) {
    forall x :: x in Reached(v) ==> !x.Row?
  }

  /** Built from scalars, lists, dicts and foreign objects only. */
  ghost predicate Plain(v: Value) {
    forall x :: x in Reached(v) ==> x.Absent? || x.Scalar? || x.Foreign? || x.Dict? || x.List?
  }

  /** The column values of every row that is reached. */
  ghost predicate ColumnsRowFree(v: Value) {
    forall x :: x in Reached(v) && x.Row? ==> forall c :: c in x.columns ==> RowFree(c.value)
  }

  ghost predicate ColumnsPlain(v: Value) {
    forall x :: x in Reached(v) && x.Row? ==> forall c :: c in x.columns ==> Plain(c.value)
  }

  // ---- what materialising reaches ----

  /** One of the two properties: not to be a row, or to be of a plain kind. */
  ghost predicate Good(x: Value, rowsOnly: bool) {
    if rowsOnly then !x.Row? else x.Absent? || x.Scalar? || x.Foreign? || x.Dict? || x.List?
  }

  ghost predicate AllGood(xs: seq<Value>, rowsOnly: bool) {
    forall x :: x in xs ==> Good(x, rowsOnly)
  }

  ghost predicate GoodColumns(xs: seq<Value>, rowsOnly: bool) {
    forall x :: x in xs && x.Row? ==> AllGood(ReachedEntries(x.columns), rowsOnly)
  }

  lemma ResultGood(v: Value, rowsOnly: bool)
    ensures AllGood(Reached(Materialize(v)), rowsOnly) <==> GoodColumns(Reached(v), rowsOnly)
    decreases v, 1
  {
    match v
    case Dict(entries) => ResultGoodEntries(entries, rowsOnly);
    case Mapping(entries) => ResultGoodEntries(entries, rowsOnly);
    case List(items) => ResultGoodAll(items, rowsOnly);
    case Tuple(items) => ResultGoodAll(items, rowsOnly);
    case Group(items) => ResultGoodAll(items, rowsOnly);
    case Row(columns) => assert v in Reached(v);
    case _ =>
  }

  lemma ResultGoodAll(vs: seq<Value>, rowsOnly: bool)
    ensures AllGood(ReachedAll(MaterializeAll(vs)), rowsOnly) <==> GoodColumns(ReachedAll(vs), rowsOnly)
    decreases vs, 0
  {
    if vs != [] {
      ResultGood(vs[0], rowsOnly);
      ResultGoodAll(vs[1..], rowsOnly);
      assert MaterializeAll(vs)[1..] == MaterializeAll(vs[1..]);
    }
  }

  lemma ResultGoodEntries(es: seq<Entry>, rowsOnly: bool)
    ensures AllGood(ReachedEntries(MaterializeEntries(es)), rowsOnly) <==> GoodColumns(ReachedEntries(es), rowsOnly)
    decreases es, 0
  {
    if es != [] {
      ResultGood(es[0].value, rowsOnly);
      ResultGoodEntries(es[1..], rowsOnly);
      assert MaterializeEntries(es)[1..] == MaterializeEntries(es[1..]);
    }
  }

  lemma {:induction false} EntriesReach(es: seq<Entry>, rowsOnly: bool)
    ensures AllGood(ReachedEntries(es), rowsOnly) <==>
      forall c :: c in es ==> AllGood(Reached(c.value), rowsOnly)
  {
    if es != [] { EntriesReach(es[1..], rowsOnly); }
  }

  lemma ColumnsGood(v: Value, rowsOnly: bool)
    ensures GoodColumns(Reached(v), rowsOnly) <==>
      forall x :: x in Reached(v) && x.Row? ==> forall c :: c in x.columns ==> AllGood(Reached(c.value), rowsOnly)
  {
    forall x | x in Reached(v) && x.Row? { EntriesReach(x.columns, rowsOnly); }
  }

  /** Materialising removes every row at any depth, exactly when no row sits inside a
      column of a row. */
  lemma RowsRemovedExactly(v: Value)
    ensures RowFree(Materialize(v)) <==> ColumnsRowFree(v)
  {
    ResultGood(v, true);
    ColumnsGood(v, true);
    assert RowFree(Materialize(v)) <==> AllGood(Reached(Materialize(v)), true);
    assert forall c: Value :: AllGood(Reached(c), true) <==> RowFree(c);
  }

  lemma PlainResultExactly(v: Value)
    ensures Plain(Materialize(v)) <==> ColumnsPlain(v)
  {
    ResultGood(v, false);
    ColumnsGood(v, false);
    assert Plain(Materialize(v)) <==> AllGood(Reached(Materialize(v)), false);
    assert forall c: Value :: AllGood(Reached(c), false) <==> Plain(c);
  }

  // ---- what it leaves alone ----

  lemma FixedExactly(v: Value)
    ensures Materialize(v) == v <==> Plain(v)
    decreases v, 1
  {
    assert v in Reached(v);
    match v
    case Dict(entries) => FixedEntries(entries);
    case List(items) => FixedAll(items);
    case _ =>
  }

  lemma FixedAll(vs: seq<Value>)
    ensures MaterializeAll(vs) == vs <==> AllGood(ReachedAll(vs), false)
    decreases vs, 0
  {
    if vs != [] {
      FixedExactly(vs[0]);
      assert Plain(vs[0]) <==> AllGood(Reached(vs[0]), false);
      FixedAll(vs[1..]);
      assert vs == [vs[0]] + vs[1..];
      assert MaterializeAll(vs)[0] == Materialize(vs[0]) && MaterializeAll(vs)[1..] == MaterializeAll(vs[1..]);
    }
  }

  lemma FixedEntries(es: seq<Entry>)
    ensures MaterializeEntries(es) == es <==> AllGood(ReachedEntries(es), false)
    decreases es, 0
  {
    if es != [] {
      FixedExactly(es[0].value);
      assert Plain(es[0].value) <==> AllGood(Reached(es[0].value), false);
      FixedEntries(es[1..]);
      assert es == [es[0]] + es[1..];
      assert MaterializeEntries(es)[0].value == Materialize(es[0].value);
      assert MaterializeEntries(es)[1..] == MaterializeEntries(es[1..]);
    }
  }

  /** Materialising twice is the same as once exactly when the columns of the rows that
      are reached hold plain values. */
  lemma IdempotentExactly(v: Value)
    ensures Materialize(Materialize(v)) == Materialize(v) <==> ColumnsPlain(v)
  {
    FixedExactly(Materialize(v));
    PlainResultExactly(v);
  }

  // ---- what stands where ----

  /** What a container holds, in order; there is no way into a row. */
  function Children(v: Value): seq<Value> {
    match v
    case Dict(entries) => seq(|entries|, i requires 0 <= i < |entries| => entries[i].value)
    case Mapping(entries) => seq(|entries|, i requires 0 <= i < |entries| => entries[i].value)
    case List(items) => items
    case Tuple(items) => items
    case Group(items) => items
    case _ => []
  }

  /** The part of the value at the path of positions. */
  function Part(v: Value, path: seq<nat>): Option<Value>
    decreases |path|
  {
    if path == [] then Some(v)
    else if path[0] < |Children(v)| then Part(Children(v)[path[0]], path[1..])
    else None
  }

  /** What stands in the result where `x` stood: for a row the dict of its columns, for a
      container one of the same size with the same keys, and else `x` itself. */
  ghost predicate Became(x: Value, y: Value) {
    match x
    case Row(columns) => y == Dict(columns)
    case Dict(entries) => y.Dict? && SameKeys(entries, y.entries)
    case Mapping(entries) => y.Dict? && SameKeys(entries, y.entries)
    case List(items) => y.List? && |y.items| == |items|
    case Tuple(items) => y.List? && |y.items| == |items|
    case Group(items) => y.List? && |y.items| == |items|
    case _ => y == x
  }

  ghost predicate SameKeys(es: seq<Entry>, fs: seq<Entry>) {
    |fs| == |es| && forall i :: 0 <= i < |es| ==> fs[i].key == es[i].key
  }

  lemma {:induction false} AllItems(vs: seq<Value>)
    ensures |MaterializeAll(vs)| == |vs|
    ensures forall i :: 0 <= i < |vs| ==> MaterializeAll(vs)[i] == Materialize(vs[i])
  {
    if vs != [] { AllItems(vs[1..]); }
  }

  lemma {:induction false} AllEntries(es: seq<Entry>)
    ensures SameKeys(es, MaterializeEntries(es))
    ensures forall i :: 0 <= i < |es| ==> MaterializeEntries(es)[i].value == Materialize(es[i].value)
  {
    if es != [] { AllEntries(es[1..]); }
  }

  lemma OneBecomes(v: Value)
    ensures Became(v, Materialize(v))
  {
    if v.Dict? || v.Mapping? { AllEntries(v.entries); }
    if v.List? || v.Tuple? || v.Group? { AllItems(v.items); }
  }

  lemma ChildrenBecome(v: Value)
    requires !v.Row?
    ensures |Children(Materialize(v))| == |Children(v)|
    ensures forall i :: 0 <= i < |Children(v)| ==> Children(Materialize(v))[i] == Materialize(Children(v)[i])
  {
    if v.Dict? || v.Mapping? { AllEntries(v.entries); }
    if v.List? || v.Tuple? || v.Group? { AllItems(v.items); }
  }

  /** The path runs into a row of the value. */
  ghost predicate ThroughRow(v: Value, path: seq<nat>) {
    exists n :: 0 <= n <= |path| && Part(v, path[..n]).Some? && Part(v, path[..n]).value.Row?
  }

  lemma RowFurther(v: Value, path: seq<nat>)
    requires path != [] && path[0] < |Children(v)| && ThroughRow(Children(v)[path[0]], path[1..])
    ensures ThroughRow(v, path)
  {
    var w := Children(v)[path[0]];
    var n :| 0 <= n <= |path| - 1 && Part(w, path[1..][..n]).Some? && Part(w, path[1..][..n]).value.Row?;
    assert path[..n + 1][1..] == path[1..][..n] && path[..n + 1][0] == path[0];
    assert Part(v, path[..n + 1]) == Part(w, path[1..][..n]);
  }

  /** Every part of the value is found in the result at the same place as what it became,
      and there is nothing else in the result but what is inside a row's columns. */
  lemma {:induction false} PlacesExactly(v: Value, path: seq<nat>)
    ensures Part(v, path).Some? ==> Part(Materialize(v), path).Some? && Became(Part(v, path).value, Part(Materialize(v), path).value)
    ensures Part(v, path).None? && Part(Materialize(v), path).Some? ==> ThroughRow(v, path)
    decreases |path|
  {
    if path == [] {
      OneBecomes(v);
    } else if v.Row? {
      assert Part(v, path[..0]) == Some(v);
    } else {
      ChildrenBecome(v);
      if path[0] < |Children(v)| {
        PlacesExactly(Children(v)[path[0]], path[1..]);
        if ThroughRow(Children(v)[path[0]], path[1..]) { RowFurther(v, path); }
      }
    }
  }
}
