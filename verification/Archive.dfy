/** Reading a published back-catalogue page by page, and what is kept of it when the
    server answers to the end or stops with an error part way. */
module Archive {
  import opened Options

  /** An archive item as served; absent fields are empty strings. */
  datatype Item = Item(published: Option<int>, url: string, title: string, subtitle: string,
                       description: string, tags: seq<string>)

  datatype Entry = Entry(url: string, title: string, summary: string, published: int, tags: seq<string>)

  datatype Platform = DevTo | Substack

  /** What a server holds, and from which request on it answers with an HTTP error. */
  datatype Server = Server(items: seq<Item>, failsFrom: Option<nat>)

  function PageSize(p: Platform): nat {
    match p case DevTo => 100 case Substack => 50
  }

  function Adapt(p: Platform, item: Item): Option<Entry> {
    if item.published.None? then None
    else
      match p
      case DevTo => Some(Entry(item.url, item.title, item.description, item.published.value, item.tags))
      case Substack =>
        Some(Entry(item.url, item.title, if item.subtitle != "" then item.subtitle else item.description,
                   item.published.value, []))
  }

  /** The entries an adapter yields for the items, in order. */
  function Yielded(p: Platform, items: seq<Item>): seq<Entry> {
    if items == [] then []
    else
      (match Adapt(p, items[0]) case None => [] case Some(e) => [e]) + Yielded(p, items[1..])
  }

  predicate Linked(e: Entry) {
    e.url != "" && e.title != ""
  }

  function Kept(entries: seq<Entry>): seq<Entry> {
    if entries == [] then []
    else (if Linked(entries[0]) then [entries[0]] else []) + Kept(entries[1..])
  }

  /** At most `size` items from `start` on; nothing beyond the end. */
  function Window(items: seq<Item>, start: nat, size: nat): seq<Item> {
    if start >= |items| then []
    else if start + size <= |items| then items[start..start + size]
    else items[start..]
  }

  function Min(a: nat, b: nat): nat {
    if a < b then a else b
  }

  /** How many items the server hands out before it is empty or fails. */
  function Served(s: Server, size: nat): nat {
    if s.failsFrom.Some? then Min(s.failsFrom.value * size, |s.items|) else |s.items|
  }

  /** The server fails before it has answered with an empty page. */
  predicate Interrupted(s: Server, size: nat) {
    s.failsFrom.Some? && s.failsFrom.value * size < |s.items| + size
  }

  lemma {:induction false} YieldedSplits(p: Platform, xs: seq<Item>, ys: seq<Item>)
    ensures Yielded(p, xs + ys) == Yielded(p, xs) + Yielded(p, ys)
  {
    if xs == [] {
      assert xs + ys == ys;
    } else {
      assert (xs + ys)[1..] == xs[1..] + ys;
      YieldedSplits(p, xs[1..], ys);
      var first := match Adapt(p, xs[0]) case None => [] case Some(e) => [e];
      assert (first + Yielded(p, xs[1..])) + Yielded(p, ys) == first + (Yielded(p, xs[1..]) + Yielded(p, ys));
    }
  }

  lemma {:induction false} KeptSplits(xs: seq<Entry>, ys: seq<Entry>)
    ensures Kept(xs + ys) == Kept(xs) + Kept(ys)
  {
    if xs == [] {
      assert xs + ys == ys;
    } else {
      assert (xs + ys)[1..] == xs[1..] + ys;
      KeptSplits(xs[1..], ys);
      var first := if Linked(xs[0]) then [xs[0]] else [];
      assert (first + Kept(xs[1..])) + Kept(ys) == first + (Kept(xs[1..]) + Kept(ys));
    }
  }

  /** One page more is one window more of the archive. */
  lemma NextWindow(s: Server, size: nat, page: nat)
    requires size > 0 && page * size <= |s.items|
    ensures var start := page * size;
      var batch := Window(s.items, start, size);
      && (batch == [] <==> start == |s.items|)
      && s.items[..start] + batch == s.items[..Min(start + size, |s.items|)]
  {}

  lemma YieldedNext(p: Platform, items: seq<Item>, i: nat)
    requires i < |items|
    ensures Yielded(p, items[..i + 1]) ==
      Yielded(p, items[..i]) + match Adapt(p, items[i]) case None => [] case Some(e) => [e]
  {
    assert items[..i + 1] == items[..i] + [items[i]];
    YieldedSplits(p, items[..i], [items[i]]);
    assert [items[i]][1..] == [];
  }

  lemma KeptEntry(entries: seq<Entry>, i: nat)
    requires i < |entries|
    ensures Kept(entries[..i + 1]) == Kept(entries[..i]) + if Linked(entries[i]) then [entries[i]] else []
  {
    assert entries[..i + 1] == entries[..i] + [entries[i]];
    KeptSplits(entries[..i], [entries[i]]);
    assert [entries[i]][1..] == [];
  }

  method YieldBatch(p: Platform, batch: seq<Item>) returns (entries: seq<Entry>)
    ensures entries == Yielded(p, batch)
  {
    entries := [];
    for i := 0 to |batch|
      invariant entries == Yielded(p, batch[..i])
    {
      YieldedNext(p, batch, i);
      var entry := Adapt(p, batch[i]);
      if entry.Some? {
        entries := entries + [entry.value];
      }
    }
    assert batch[..|batch|] == batch;
  }

  /** The dev.to reader: numbered pages of a hundred, until one is empty. */
  method DevToEntries(s: Server) returns (entries: seq<Entry>, interrupted: bool)
    ensures entries == Yielded(DevTo, s.items[..Served(s, 100)])
    ensures interrupted == Interrupted(s, 100)
  {
    entries, interrupted := [], false;
    var page := 1;
    while true
      invariant 1 <= page && (page - 1) * 100 < |s.items| + 100
      invariant s.failsFrom.Some? ==> page - 1 <= s.failsFrom.value
      invariant entries == Yielded(DevTo, s.items[..Min((page - 1) * 100, |s.items|)])
      decreases |s.items| + 100 - page * 100
    {
      if s.failsFrom == Some(page - 1) { return entries, true; }
      var batch := Window(s.items, (page - 1) * 100, 100);
      if batch == [] { return entries, false; }
      NextWindow(s, 100, page - 1);
      YieldedSplits(DevTo, s.items[..(page - 1) * 100], batch);
      var more := YieldBatch(DevTo, batch);
      entries := entries + more;
      page := page + 1;
    }
  }

  /** The Substack reader: offsets in steps of fifty, until a page is empty. */
  method SubstackEntries(s: Server) returns (entries: seq<Entry>, interrupted: bool)
    ensures entries == Yielded(Substack, s.items[..Served(s, 50)])
    ensures interrupted == Interrupted(s, 50)
  {
    entries, interrupted := [], false;
    var offset := 0;
    while true
      invariant offset % 50 == 0 && 0 <= offset < |s.items| + 50
      invariant s.failsFrom.Some? ==> offset / 50 <= s.failsFrom.value
      invariant entries == Yielded(Substack, s.items[..Min(offset, |s.items|)])
      decreases |s.items| + 50 - offset
    {
      if s.failsFrom == Some(offset / 50) { return entries, true; }
      var batch := Window(s.items, offset, 50);
      if batch == [] { return entries, false; }
      NextWindow(s, 50, offset / 50);
      YieldedSplits(Substack, s.items[..offset], batch);
      var more := YieldBatch(Substack, batch);
      entries := entries + more;
      offset := offset + 50;
    }
  }

  /** Everything usable that was served is collected, also when the server stopped. */
  method Collect(p: Platform, s: Server) returns (entries: seq<Entry>)
    ensures entries == Kept(Yielded(p, s.items[..Served(s, PageSize(p))]))
  {
    var yielded: seq<Entry>;
    var interrupted: bool;
    match p {
      case DevTo => yielded, interrupted := DevToEntries(s);
      case Substack => yielded, interrupted := SubstackEntries(s);
    }
    entries := [];
    for i := 0 to |yielded|
      invariant entries == Kept(yielded[..i])
    {
      KeptEntry(yielded, i);
      if Linked(yielded[i]) {
        entries := entries + [yielded[i]];
      }
    }
    assert yielded[..|yielded|] == yielded;
  }

  // ---- what the collected list is ----

  /** Dated, linked and titled. */
  predicate UsableItem(item: Item) {
    item.published.Some? && item.url != "" && item.title != ""
  }

  /** The entry says of the item what the platform's archive says of it. */
  predicate Describes(e: Entry, p: Platform, item: Item) {
    && e.url == item.url && e.title == item.title && item.published == Some(e.published)
    && match p
       case DevTo => e.summary == item.description && e.tags == item.tags
       case Substack => e.summary == (if item.subtitle != "" then item.subtitle else item.description) && e.tags == []
  }

  lemma KeptOne(p: Platform, item: Item)
    ensures UsableItem(item) ==> |Kept(Yielded(p, [item]))| == 1 && Describes(Kept(Yielded(p, [item]))[0], p, item)
    ensures !UsableItem(item) ==> Kept(Yielded(p, [item])) == []
  {
    assert [item][1..] == [];
    var entry := Adapt(p, item);
    assert Yielded(p, [item]) == match entry case None => [] case Some(e) => [e];
    if entry.Some? { assert [entry.value][1..] == []; }
  }

  /** One item more adds its entry if it is usable, and else nothing. */
  lemma KeptNext(p: Platform, items: seq<Item>, n: nat)
    requires 0 < n <= |items|
    ensures Kept(Yielded(p, items[..n])) == Kept(Yielded(p, items[..n - 1])) + Kept(Yielded(p, [items[n - 1]]))
  {
    assert items[..n] == items[..n - 1] + [items[n - 1]];
    YieldedSplits(p, items[..n - 1], [items[n - 1]]);
    KeptSplits(Yielded(p, items[..n - 1]), Yielded(p, [items[n - 1]]));
  }

  /** `at` are the positions of the usable items among the first `n`, in order and once each. */
  ghost predicate UsableAt(at: seq<nat>, items: seq<Item>, n: nat)
    requires n <= |items|
  {
    && (forall i, j :: 0 <= i < j < |at| ==> at[i] < at[j])
    && (forall k :: k in at <==> 0 <= k < n && UsableItem(items[k]))
  }

  lemma UsableNext(before: seq<nat>, items: seq<Item>, n: nat)
    requires 0 < n <= |items| && UsableAt(before, items, n - 1)
    ensures UsableItem(items[n - 1]) ==> UsableAt(before + [n - 1], items, n)
    ensures !UsableItem(items[n - 1]) ==> UsableAt(before, items, n)
    ensures forall i :: 0 <= i < |before| ==> before[i] < n - 1
  {
    forall i | 0 <= i < |before| ensures before[i] < n - 1 { assert before[i] in before; }
    assert forall k :: k in before <==> 0 <= k < n - 1 && UsableItem(items[k]);
  }

  /** The entries are one for each usable item among the first `n`, in order, and each says what
      its item says. */
  ghost predicate EntriesFor(entries: seq<Entry>, at: seq<nat>, p: Platform, items: seq<Item>, n: nat)
    requires n <= |items|
  {
    && UsableAt(at, items, n) && |entries| == |at|
    && forall i :: 0 <= i < |at| ==> at[i] < n && Describes(entries[i], p, items[at[i]])
  }

  lemma EntriesNext(entries: seq<Entry>, at: seq<nat>, p: Platform, items: seq<Item>, n: nat, more: seq<Entry>)
    requires 0 < n <= |items| && EntriesFor(entries, at, p, items, n - 1)
    requires UsableItem(items[n - 1]) ==> |more| == 1 && Describes(more[0], p, items[n - 1])
    requires !UsableItem(items[n - 1]) ==> more == []
    ensures UsableItem(items[n - 1]) ==> EntriesFor(entries + more, at + [n - 1], p, items, n)
    ensures !UsableItem(items[n - 1]) ==> EntriesFor(entries + more, at, p, items, n)
  {
    UsableNext(at, items, n);
    if more == [] { assert entries + more == entries; }
  }

  /** The collected list has one entry for each usable item that was served, in order, and
      each says what its item says. */
  lemma {:induction false} CollectedExactly(p: Platform, items: seq<Item>, n: nat) returns (at: seq<nat>)
    requires n <= |items|
    ensures EntriesFor(Kept(Yielded(p, items[..n])), at, p, items, n)
  {
    at := [];
    if n > 0 {
      var before := CollectedExactly(p, items, n - 1);
      KeptNext(p, items, n);
      KeptOne(p, items[n - 1]);
      EntriesNext(Kept(Yielded(p, items[..n - 1])), before, p, items, n, Kept(Yielded(p, [items[n - 1]])));
      at := if UsableItem(items[n - 1]) then before + [n - 1] else before;
    }
  }
}
