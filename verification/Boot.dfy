/** The app bootstrap aggregator: domains register in boot order, a failing peripheral
    domain degrades the system, a failing or blocked core domain stops the boot. */
module Boot {

  datatype Meta = Meta(dependsOn: seq<string>, core: bool)

  /** `blockedBy` is empty when the domain's own registration failed. */
  datatype Outcome = Completed | Raised(culprit: string, blockedBy: seq<string>)

  /** The module's globals and what it has published to the runtime's registry. */
  datatype World = World(bootstrapped: bool, degraded: seq<string>, registered: seq<string>,
                         core: set<string>, publishedDegraded: seq<string>)

  /** What one pass over the boot order registers, degrades, and ends with. */
  datatype Pass = Pass(registered: seq<string>, degraded: seq<string>, outcome: Outcome)

  type Metadata = map<string, Meta>

  function CoreDomains(metadata: Metadata): set<string> {
    set app | app in metadata && metadata[app].core
  }

  function Select(xs: seq<string>, keep: set<string>): seq<string> {
    if xs == [] then []
    else (if xs[0] in keep then [xs[0]] else []) + Select(xs[1..], keep)
  }

  function Drop(xs: seq<string>, out: set<string>): seq<string> {
    if xs == [] then []
    else (if xs[0] in out then [] else [xs[0]]) + Drop(xs[1..], out)
  }

  /** The boot order names domains of the metadata, each once. */
  ghost predicate BootOrder(order: seq<string>, metadata: Metadata) {
    && (forall i :: 0 <= i < |order| ==> order[i] in metadata)
    && (forall i, j :: 0 <= i < j < |order| ==> order[i] != order[j])
  }

  /** Every declared dependency boots earlier. */
  ghost predicate Topological(order: seq<string>, metadata: Metadata)
    requires BootOrder(order, metadata)
  {
    forall i :: 0 <= i < |order| ==>
      forall d :: d in metadata[order[i]].dependsOn ==> d in order[..i]
  }

  /** The rest of a pass, from position `i` on; `working` are the domains whose import,
      registration and publication succeed this time. */
  function PassFrom(order: seq<string>, metadata: Metadata, working: set<string>, i: nat, failed: set<string>): Pass
    requires i <= |order| && forall k :: 0 <= k < |order| ==> order[k] in metadata
    decreases |order| - i
  {
    if i == |order| then Pass([], [], Completed)
    else
      var app := order[i];
      var blockedBy := Select(metadata[app].dependsOn, failed);
      if blockedBy != [] && app in CoreDomains(metadata) then Pass([], [], Raised(app, blockedBy))
      else if app in working then
        var rest := PassFrom(order, metadata, working, i + 1, failed);
        rest.(registered := [app] + rest.registered)
      else if app in CoreDomains(metadata) then Pass([], [], Raised(app, []))
      else
        var rest := PassFrom(order, metadata, working, i + 1, failed + {app});
        rest.(degraded := [app] + rest.degraded)
  }

  /** One call of `bootstrap()`. */
  function Call(w: World, order: seq<string>, metadata: Metadata, working: set<string>): World
    requires forall k :: 0 <= k < |order| ==> order[k] in metadata
  {
    if w.bootstrapped then w
    else
      var pass := PassFrom(order, metadata, working, 0, {});
      World(pass.outcome.Completed?, pass.degraded, w.registered + pass.registered, CoreDomains(metadata), pass.degraded)
  }

  /** The first of the remaining domains becomes the last of those done. */
  lemma FirstMoved(done: seq<string>, app: string, todo: seq<string>)
    requires todo != [] && todo[0] == app
    ensures (done + [app]) + todo[1..] == done + todo
  {}

  class Bootstrapper {
    var bootstrapped: bool
    var degraded: seq<string>
    var registered: seq<string>
    var core: set<string>
    var publishedDegraded: seq<string>

    ghost function View(): World
      reads this
    {
      World(bootstrapped, degraded, registered, core, publishedDegraded)
    }

    /** What is published is what the module remembers. */
    ghost predicate Settled()
      reads this
    {
      publishedDegraded == degraded
    }

    constructor ()
      ensures View() == World(false, [], [], {}, []) && Settled()
    {
      bootstrapped, degraded, registered, core, publishedDegraded := false, [], [], {}, [];
    }

    method GetDegradedDomains() returns (domains: seq<string>)
      ensures domains == View().degraded && (Settled() ==> domains == publishedDegraded)
    {
      domains := degraded;
    }

    method Bootstrap(order: seq<string>, metadata: Metadata, working: set<string>) returns (outcome: Outcome)
      requires forall k :: 0 <= k < |order| ==> order[k] in metadata
      modifies this
      ensures View() == Call(old(View()), order, metadata, working)
      ensures old(Settled()) ==> Settled()
      ensures outcome == if old(bootstrapped) then Completed else PassFrom(order, metadata, working, 0, {}).outcome
    {
      if bootstrapped { return Completed; }
      core := CoreDomains(metadata);
      publishedDegraded := [];
      var failed: set<string> := {};
      var failedPeripheral: seq<string> := [];
      ghost var pass := PassFrom(order, metadata, working, 0, {});
      for i := 0 to |order|
        invariant core == CoreDomains(metadata) && !bootstrapped
        invariant var rest := PassFrom(order, metadata, working, i, failed);
          && pass.outcome == rest.outcome
          && pass.degraded == failedPeripheral + rest.degraded
          && old(registered) + pass.registered == registered + rest.registered
      {
        var app := order[i];
        var blockedBy := Select(metadata[app].dependsOn, failed);
        if blockedBy != [] && app in core {
          bootstrapped, degraded, publishedDegraded := false, failedPeripheral, failedPeripheral;
          return Raised(app, blockedBy);
        }
        ghost var rest := PassFrom(order, metadata, working, i, failed);
        if app in working {
          FirstMoved(registered, app, rest.registered);
          registered := registered + [app];
        } else {
          failed := failed + {app};
          if app in core {
            bootstrapped, degraded, publishedDegraded := false, failedPeripheral, failedPeripheral;
            return Raised(app, []);
          }
          FirstMoved(failedPeripheral, app, rest.degraded);
          failedPeripheral := failedPeripheral + [app];
        }
      }
      degraded, publishedDegraded, bootstrapped := failedPeripheral, failedPeripheral, true;
      return Completed;
    }
  }

  // ---- the outcome of one pass ----

  /** The domain's metadata says that it is core. */
  predicate IsCore(metadata: Metadata, app: string) {
    app in metadata && metadata[app].core
  }

  /** A core domain at position `k` stops the boot: it fails, or depends on a domain
      that failed before it. */
  ghost predicate Stops(order: seq<string>, metadata: Metadata, working: set<string>, k: nat)
    requires k < |order| && BootOrder(order, metadata)
  {
    && IsCore(metadata, order[k])
    && (order[k] !in working || exists d :: d in metadata[order[k]].dependsOn && d in Failed(order, working, k))
  }

  /** The domains before position `k` that did not register. */
  function Failed(order: seq<string>, working: set<string>, k: nat): set<string>
    requires k <= |order|
  {
    set app | app in order[..k] && app !in working
  }

  lemma {:induction false} SelectHits(xs: seq<string>, keep: set<string>)
    ensures Select(xs, keep) == [] <==> forall x :: x in xs ==> x !in keep
    ensures forall x :: x in Select(xs, keep) <==> x in xs && x in keep
  {
    if xs != [] { SelectHits(xs[1..], keep); }
  }

  lemma {:induction false} DropHits(xs: seq<string>, out: set<string>)
    ensures forall x :: x in Drop(xs, out) <==> x in xs && x !in out
  {
    if xs != [] { DropHits(xs[1..], out); }
  }

  lemma {:induction false} DropDistinct(xs: seq<string>, out: set<string>)
    requires forall i, j :: 0 <= i < j < |xs| ==> xs[i] != xs[j]
    ensures forall i, j :: 0 <= i < j < |Drop(xs, out)| ==> Drop(xs, out)[i] != Drop(xs, out)[j]
  {
    if xs != [] {
      DropDistinct(xs[1..], out);
      DropHits(xs[1..], out);
      assert xs[0] !in xs[1..];
    }
  }

  lemma FailedNext(order: seq<string>, working: set<string>, i: nat)
    requires i < |order|
    ensures Failed(order, working, i + 1) ==
      if order[i] in working then Failed(order, working, i) else Failed(order, working, i) + {order[i]}
  {
    assert order[..i + 1] == order[..i] + [order[i]];
  }

  /** One domain more at the front of a stretch of the boot order. */
  lemma StretchFrom(order: seq<string>, working: set<string>, i: nat, k: nat)
    requires i < k <= |order|
    ensures Select(order[i..k], working) == (if order[i] in working then [order[i]] else []) + Select(order[i + 1..k], working)
    ensures Drop(order[i..k], working) == (if order[i] in working then [] else [order[i]]) + Drop(order[i + 1..k], working)
  {
    assert order[i..k][0] == order[i] && order[i..k][1..] == order[i + 1..k];
  }

  /** The pass from `i` on, when nothing stops it there. */
  lemma PassGoesOn(order: seq<string>, metadata: Metadata, working: set<string>, i: nat)
    requires BootOrder(order, metadata) && i < |order| && !Stops(order, metadata, working, i)
    ensures var pass := PassFrom(order, metadata, working, i, Failed(order, working, i));
      var rest := PassFrom(order, metadata, working, i + 1, Failed(order, working, i + 1));
      && pass.outcome == rest.outcome
      && pass.registered == (if order[i] in working then [order[i]] else []) + rest.registered
      && pass.degraded == (if order[i] in working then [] else [order[i]]) + rest.degraded
  {
    SelectHits(metadata[order[i]].dependsOn, Failed(order, working, i));
    FailedNext(order, working, i);
  }

  /** A pass registers and degrades exactly the domains before the first one that stops
      it, in boot order, and raises for that one; if none does, it completes. */
  lemma {:induction false} PassExactly(order: seq<string>, metadata: Metadata, working: set<string>, i: nat)
      returns (k: nat)
    requires BootOrder(order, metadata) && i <= |order|
    ensures i <= k <= |order| && forall j :: i <= j < k ==> !Stops(order, metadata, working, j)
    ensures var pass := PassFrom(order, metadata, working, i, Failed(order, working, i));
      && pass.registered == Select(order[i..k], working)
      && pass.degraded == Drop(order[i..k], working)
      && (k == |order| <==> pass.outcome.Completed?)
      && (k < |order| ==> Stops(order, metadata, working, k) && pass.outcome.culprit == order[k])
      && (k < |order| ==> pass.outcome.blockedBy == Select(metadata[order[k]].dependsOn, Failed(order, working, k)))
    decreases |order| - i
  {
    k := i;
    if i < |order| {
      SelectHits(metadata[order[i]].dependsOn, Failed(order, working, i));
      if !Stops(order, metadata, working, i) {
        k := PassExactly(order, metadata, working, i + 1);
        PassGoesOn(order, metadata, working, i);
        StretchFrom(order, working, i, k);
      }
    }
  }

  lemma {:induction false} SelectOf(xs: seq<string>, working: set<string>)
    ensures |Select(xs, working)| + |Drop(xs, working)| == |xs|
  {
    if xs != [] { SelectOf(xs[1..], working); }
  }

  /** On normal return the registered domains and the degraded list split the boot order;
      no domain is degraded twice, and no core domain is. */
  lemma CompletedPartitions(order: seq<string>, metadata: Metadata, working: set<string>)
    requires BootOrder(order, metadata)
    requires PassFrom(order, metadata, working, 0, {}).outcome.Completed?
    ensures var pass := PassFrom(order, metadata, working, 0, {});
      && pass.registered == Select(order, working) && pass.degraded == Drop(order, working)
      && |pass.registered| + |pass.degraded| == |order|
      && (forall app :: app in order <==> app in pass.registered || app in pass.degraded)
      && (forall i, j :: 0 <= i < j < |pass.degraded| ==> pass.degraded[i] != pass.degraded[j])
      && (forall app :: app in pass.degraded ==> app !in pass.registered && !IsCore(metadata, app))
  {
    DropDistinct(order, working);
    assert Failed(order, working, 0) == {};
    var k := PassExactly(order, metadata, working, 0);
    assert order[0..k] == order;
    SelectOf(order, working);
    SelectHits(order, working);
    DropHits(order, working);
    forall app | app in Drop(order, working) ensures !IsCore(metadata, app) {
      var j :| 0 <= j < |order| && order[j] == app;
      assert !Stops(order, metadata, working, j);
    }
  }

  /** On a raise the culprit is a core domain at some position `k`, everything before it
      was attempted, nothing after it, and the published degraded list is exactly the
      failed peripherals before it. */
  lemma RaisedStopsThere(order: seq<string>, metadata: Metadata, working: set<string>) returns (k: nat)
    requires BootOrder(order, metadata)
    requires PassFrom(order, metadata, working, 0, {}).outcome.Raised?
    ensures k < |order| && Stops(order, metadata, working, k)
    ensures forall j :: 0 <= j < k ==> !Stops(order, metadata, working, j)
    ensures var pass := PassFrom(order, metadata, working, 0, {});
      && pass.outcome.culprit == order[k] && IsCore(metadata, order[k])
      && (forall d :: d in pass.outcome.blockedBy <==> d in metadata[order[k]].dependsOn && d in order[..k] && d !in working)
      && pass.registered == Select(order[..k], working)
      && pass.degraded == Drop(order[..k], working)
      && (forall app :: app in pass.degraded ==> !IsCore(metadata, app))
  {
    assert Failed(order, working, 0) == {};
    k := PassExactly(order, metadata, working, 0);
    assert order[0..k] == order[..k];
    SelectHits(metadata[order[k]].dependsOn, Failed(order, working, k));
    DropHits(order[..k], working);
    forall app | app in Drop(order[..k], working) ensures !IsCore(metadata, app) {
      var j :| 0 <= j < k && order[j] == app;
      assert !Stops(order, metadata, working, j);
    }
  }

  /** In a topological order a boot completes exactly when every core domain registers
      and so does everything a core domain directly depends on. */
  lemma CompletesExactly(order: seq<string>, metadata: Metadata, working: set<string>)
    requires BootOrder(order, metadata) && Topological(order, metadata)
    ensures PassFrom(order, metadata, working, 0, {}).outcome.Completed? <==>
      forall app :: app in order && IsCore(metadata, app) ==>
        app in working && forall d :: d in metadata[app].dependsOn ==> d in working
  {
    assert Failed(order, working, 0) == {};
    var k := PassExactly(order, metadata, working, 0);
    if k == |order| {
      forall app | app in order && IsCore(metadata, app)
        ensures app in working && forall d :: d in metadata[app].dependsOn ==> d in working
      {
        var j :| 0 <= j < |order| && order[j] == app;
        assert !Stops(order, metadata, working, j);
        assert forall d :: d in metadata[app].dependsOn ==> d in order[..j];
      }
    } else {
      assert order[k] in order;
    }
  }

  lemma {:induction false} SelectSplit(xs: seq<string>, ys: seq<string>, keep: set<string>)
    ensures Select(xs + ys, keep) == Select(xs, keep) + Select(ys, keep)
  {
    if xs == [] {
      assert xs + ys == ys;
    } else {
      assert (xs + ys)[1..] == xs[1..] + ys;
      SelectSplit(xs[1..], ys, keep);
      var first := if xs[0] in keep then [xs[0]] else [];
      assert (first + Select(xs[1..], keep)) + Select(ys, keep) == first + (Select(xs[1..], keep) + Select(ys, keep));
    }
  }

  lemma FrontOf(xs: seq<string>, ys: seq<string>)
    requires ys != []
    ensures (xs + ys)[|xs|] == ys[0] && (xs + ys)[..|xs|] == xs
  {}

  /** A selected domain comes right after those selected before it. */
  lemma SelectedAt(order: seq<string>, i: nat, keep: set<string>)
    requires i < |order| && order[i] in keep
    ensures var n := |Select(order[..i], keep)|;
      n < |Select(order, keep)| && Select(order, keep)[n] == order[i] && Select(order, keep)[..n] == Select(order[..i], keep)
  {
    assert order == order[..i] + order[i..];
    SelectSplit(order[..i], order[i..], keep);
    FrontOf(Select(order[..i], keep), Select(order[i..], keep));
  }

  /** On completion every core domain has registered, and after all its declared dependencies. */
  lemma CoreRegistersAfterDependencies(order: seq<string>, metadata: Metadata, working: set<string>, app: string)
    requires BootOrder(order, metadata) && Topological(order, metadata)
    requires PassFrom(order, metadata, working, 0, {}).outcome.Completed?
    requires app in order && IsCore(metadata, app)
    ensures var registered := PassFrom(order, metadata, working, 0, {}).registered;
      exists n :: 0 <= n < |registered| && registered[n] == app &&
        forall d :: d in metadata[app].dependsOn ==> d in registered[..n]
  {
    CompletedPartitions(order, metadata, working);
    CompletesExactly(order, metadata, working);
    var i :| 0 <= i < |order| && order[i] == app;
    SelectedAt(order, i, working);
    SelectHits(order[..i], working);
    assert Select(order, working)[|Select(order[..i], working)|] == app;
  }

  // ---- sequences of calls ----

  /** A call that does work publishes as core exactly the domains whose metadata say so, and
      as degraded what its pass degraded, whether it completes or raises. */
  lemma CallExactly(w: World, order: seq<string>, metadata: Metadata, working: set<string>)
    requires !w.bootstrapped && forall k :: 0 <= k < |order| ==> order[k] in metadata
    ensures var w' := Call(w, order, metadata, working);
      var pass := PassFrom(order, metadata, working, 0, {});
      && (forall app :: app in w'.core <==> IsCore(metadata, app))
      && w'.publishedDegraded == pass.degraded && w'.degraded == pass.degraded
      && w'.registered == w.registered + pass.registered
      && (w'.bootstrapped <==> pass.outcome.Completed?)
  {}

  function Calls(w: World, order: seq<string>, metadata: Metadata, workings: seq<set<string>>): World
    requires forall k :: 0 <= k < |order| ==> order[k] in metadata
    decreases |workings|
  {
    if workings == [] then w
    else Call(Calls(w, order, metadata, workings[..|workings| - 1]), order, metadata, workings[|workings| - 1])
  }

  ghost predicate Boots(order: seq<string>, metadata: Metadata, working: set<string>)
    requires forall k :: 0 <= k < |order| ==> order[k] in metadata
  {
    PassFrom(order, metadata, working, 0, {}).outcome.Completed?
  }

  function AllRegistered(order: seq<string>, metadata: Metadata, workings: seq<set<string>>): seq<string>
    requires forall k :: 0 <= k < |order| ==> order[k] in metadata
    decreases |workings|
  {
    if workings == [] then []
    else AllRegistered(order, metadata, workings[..|workings| - 1]) +
         PassFrom(order, metadata, workings[|workings| - 1], 0, {}).registered
  }

  /** While no call completes, every call starts afresh and leaves only its registrations
      and its own degraded list behind. */
  lemma {:induction false} RetriesStartAfresh(w: World, order: seq<string>, metadata: Metadata, workings: seq<set<string>>)
    requires forall k :: 0 <= k < |order| ==> order[k] in metadata
    requires !w.bootstrapped && forall c :: 0 <= c < |workings| ==> !Boots(order, metadata, workings[c])
    ensures var w' := Calls(w, order, metadata, workings);
      && !w'.bootstrapped
      && w'.registered == w.registered + AllRegistered(order, metadata, workings)
      && (workings != [] ==> w'.degraded == PassFrom(order, metadata, workings[|workings| - 1], 0, {}).degraded)
    decreases |workings|
  {
    if workings != [] {
      var front := workings[..|workings| - 1];
      RetriesStartAfresh(w, order, metadata, front);
      ghost var last := PassFrom(order, metadata, workings[|workings| - 1], 0, {}).registered;
      assert (w.registered + AllRegistered(order, metadata, front)) + last
          == w.registered + (AllRegistered(order, metadata, front) + last);
    }
  }

  /** The first call that completes is the last one that does anything: whatever calls
      follow, the world stays as that call left it. */
  lemma {:induction false} FirstCompletionIsFinal(w: World, order: seq<string>, metadata: Metadata,
                                                  workings: seq<set<string>>, c: nat)
    requires forall k :: 0 <= k < |order| ==> order[k] in metadata
    requires !w.bootstrapped && c < |workings| && Boots(order, metadata, workings[c])
    requires forall b :: 0 <= b < c ==> !Boots(order, metadata, workings[b])
    ensures var w' := Calls(w, order, metadata, workings);
      && w'.bootstrapped
      && w'.registered == w.registered + AllRegistered(order, metadata, workings[..c + 1])
      && w'.degraded == PassFrom(order, metadata, workings[c], 0, {}).degraded
      && w'.publishedDegraded == w'.degraded
    decreases |workings|
  {
    var front := workings[..|workings| - 1];
    if c == |workings| - 1 {
      RetriesStartAfresh(w, order, metadata, front);
      assert workings[..c + 1] == workings;
    } else {
      FirstCompletionIsFinal(w, order, metadata, front, c);
      assert front[..c + 1] == workings[..c + 1];
    }
  }
}
