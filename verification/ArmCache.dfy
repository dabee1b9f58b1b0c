/** The ARM analyzer singleton: double-checked locking with concurrent invalidation,
    as an interleaving of the atomic steps of any number of threads. */
module ArmCache {
  import opened Options

  /** An analyzer, identified by the moment its construction began, and the version of
      the configuration it was built from. */
  datatype Analyzer = Analyzer(born: nat, version: nat)

  /** Where a thread stands in `_get_analyzer` or `_invalidate_arm_analyzer_cache`.
      `Returning` remembers when the thread last knew the cache to be filled. */
  datatype Pc =
    | Idle
    | FirstCheck
    | WantLock
    | SecondCheck
    | Building(born: nat)
    | Built(a: Analyzer)
    | LeaveFilled(known: nat)
    | LeaveFailed
    | Returning(known: nat)
    | WantClear
    | Clearing
    | LeaveCleared

  datatype State = State(pcs: map<nat, Pc>, lock: Option<nat>, cached: Option<Analyzer>, version: nat, now: nat)

  datatype Action =
    | StartGet(t: nat)
    | CheckUnlocked(t: nat)
    | Acquire(t: nat)
    | CheckLocked(t: nat)
    | Snapshot(t: nat)
    | BuildFails(t: nat)
    | Install(t: nat)
    | Release(t: nat)
    | ReturnRead(t: nat)
    | StartClear(t: nat)
    | Clear(t: nat)
    | WriteConfig

  predicate InLock(pc: Pc) {
    pc.SecondCheck? || pc.Building? || pc.Built? || pc.LeaveFilled? || pc.LeaveFailed? || pc.Clearing? || pc.LeaveCleared?
  }

  predicate Enabled(s: State, a: Action) {
    a.WriteConfig? ||
    (a.t in s.pcs &&
     var pc := s.pcs[a.t];
     match a
     case StartGet(_) => pc.Idle?
     case CheckUnlocked(_) => pc.FirstCheck?
     case Acquire(_) => (pc.WantLock? || pc.WantClear?) && s.lock.None?
     case CheckLocked(_) => pc.SecondCheck?
     case Snapshot(_) => pc.Building?
     case BuildFails(_) => pc.Building? || pc.Built?
     case Install(_) => pc.Built?
     case Release(_) => pc.LeaveFilled? || pc.LeaveFailed? || pc.LeaveCleared?
     case ReturnRead(_) => pc.Returning?
     case StartClear(_) => pc.Idle?
     case Clear(_) => pc.Clearing?)
  }

  function Apply(s: State, a: Action): State
    requires Enabled(s, a)
  {
    var s1 := s.(now := s.now + 1);
    if a.WriteConfig? then s1.(version := s.version + 1)
    else
      var t := a.t;
      var pc := s.pcs[t];
      match a
      case StartGet(_) => At(s1, t, FirstCheck)
      case CheckUnlocked(_) => At(s1, t, if s.cached.None? then WantLock else Returning(s.now))
      case Acquire(_) => At(s1, t, if pc.WantLock? then SecondCheck else Clearing).(lock := Some(t))
      case CheckLocked(_) => At(s1, t, if s.cached.None? then Building(s.now) else LeaveFilled(s.now))
      case Snapshot(_) => At(s1, t, Built(Analyzer(pc.born, s.version)))
      case BuildFails(_) => At(s1, t, LeaveFailed)
      case Install(_) => At(s1, t, LeaveFilled(s.now)).(cached := Some(pc.a))
      case Release(_) => At(s1, t, if pc.LeaveFilled? then Returning(pc.known) else Idle).(lock := None)
      case ReturnRead(_) => At(s1, t, Idle)
      case StartClear(_) => At(s1, t, WantClear)
      case Clear(_) => At(s1, t, LeaveCleared).(cached := None)
  }

  function At(s: State, t: nat, pc: Pc): State {
    s.(pcs := s.pcs[t := pc])
  }

  // ---- runs ----

  ghost predicate Initial(s: State) {
    s.lock.None? && s.cached.None? && s.now == 0 && forall t :: t in s.pcs ==> s.pcs[t].Idle?
  }

  ghost predicate CanRun(s: State, acts: seq<Action>)
    decreases |acts|, 0
  {
    acts == [] || (CanRun(s, acts[..|acts| - 1]) && Enabled(After(s, acts[..|acts| - 1]), acts[|acts| - 1]))
  }

  ghost function After(s: State, acts: seq<Action>): State
    requires CanRun(s, acts)
    decreases |acts|, 1
  {
    if acts == [] then s else Apply(After(s, acts[..|acts| - 1]), acts[|acts| - 1])
  }

  lemma {:induction false} Prefix(s: State, acts: seq<Action>, k: nat)
    requires CanRun(s, acts) && k <= |acts|
    ensures CanRun(s, acts[..k])
    decreases |acts|
  {
    if k == |acts| {
      assert acts[..k] == acts;
    } else {
      Prefix(s, acts[..|acts| - 1], k);
      assert acts[..|acts| - 1][..k] == acts[..k];
    }
  }

  /** The state of the run before its action at position `k`. */
  ghost function Before(s: State, acts: seq<Action>, k: nat): State
    requires CanRun(s, acts) && k <= |acts|
  {
    Prefix(s, acts, k);
    After(s, acts[..k])
  }

  lemma Advance(s: State, acts: seq<Action>, k: nat)
    requires CanRun(s, acts) && k < |acts|
    ensures Enabled(Before(s, acts, k), acts[k])
    ensures Before(s, acts, k + 1) == Apply(Before(s, acts, k), acts[k])
  {
    Prefix(s, acts, k);
    Prefix(s, acts, k + 1);
    assert acts[..k + 1][..k] == acts[..k];
  }

  // ---- what every reachable state satisfies ----

  /** The lock is held by exactly the thread inside it, and an analyzer under
      construction finds the cache empty. */
  ghost predicate Inv(s: State) {
    && (forall t :: t in s.pcs && InLock(s.pcs[t]) ==> s.lock == Some(t))
    && (s.lock.Some? ==> s.lock.value in s.pcs && InLock(s.pcs[s.lock.value]))
    && (forall t :: t in s.pcs && (s.pcs[t].Building? || s.pcs[t].Built?) ==> s.cached.None?)
  }

  lemma StepKeepsInv(s: State, a: Action)
    requires Inv(s) && Enabled(s, a)
    ensures Inv(Apply(s, a))
  {}

  lemma {:induction false} Reachable(s: State, acts: seq<Action>, k: nat)
    requires Initial(s) && CanRun(s, acts) && k <= |acts|
    ensures Inv(Before(s, acts, k)) && Before(s, acts, k).now == k
  {
    if k > 0 {
      Reachable(s, acts, k - 1);
      Advance(s, acts, k - 1);
      StepKeepsInv(Before(s, acts, k - 1), acts[k - 1]);
    }
  }

  /** No deadlock: while any thread is busy, some thread can move. */
  lemma SomeThreadMoves(s: State, acts: seq<Action>, t: nat)
    requires Initial(s) && CanRun(s, acts)
    requires t in After(s, acts).pcs && !After(s, acts).pcs[t].Idle?
    ensures exists a: Action :: !a.WriteConfig? && Enabled(After(s, acts), a)
  {
    Reachable(s, acts, |acts|);
    assert acts[..|acts|] == acts;
    var now := After(s, acts);
    var u := if now.lock.Some? then now.lock.value else t;
    var a := match now.pcs[u]
      case FirstCheck => CheckUnlocked(u)
      case WantLock => Acquire(u)
      case SecondCheck => CheckLocked(u)
      case Building(_) => Snapshot(u)
      case Built(_) => Install(u)
      case Returning(_) => ReturnRead(u)
      case WantClear => Acquire(u)
      case Clearing => Clear(u)
      case LeaveFilled(_) => Release(u)
      case LeaveFailed => Release(u)
      case LeaveCleared => Release(u)
      case Idle => WriteConfig;
    assert Enabled(now, a);
  }

  // ---- freshness ----

  /** Everything alive in the cache, or about to be installed, was begun at or after
      `since` and reads a configuration at least as new as `version`. */
  ghost predicate Fresh(s: State, since: nat, version: nat) {
    && s.now >= since && s.version >= version
    && (s.cached.Some? ==> s.cached.value.born >= since && s.cached.value.version >= version)
    && (forall t :: t in s.pcs && s.pcs[t].Building? ==> s.pcs[t].born >= since)
    && (forall t :: t in s.pcs && s.pcs[t].Built? ==> s.pcs[t].a.born >= since && s.pcs[t].a.version >= version)
  }

  lemma StepKeepsFresh(s: State, a: Action, since: nat, version: nat)
    requires Fresh(s, since, version) && Enabled(s, a)
    ensures Fresh(Apply(s, a), since, version)
  {
    var s' := Apply(s, a);
    forall t | t in s'.pcs && (s'.pcs[t].Building? || s'.pcs[t].Built?)
      ensures if s'.pcs[t].Building? then s'.pcs[t].born >= since
              else s'.pcs[t].a.born >= since && s'.pcs[t].a.version >= version
    {
      if a.WriteConfig? || a.t != t { assert s'.pcs[t] == s.pcs[t]; }
    }
  }

  lemma {:induction false} StaysFresh(s: State, acts: seq<Action>, i: nat, j: nat, since: nat, version: nat)
    requires CanRun(s, acts) && i <= j <= |acts|
    requires Fresh(Before(s, acts, i), since, version)
    ensures Fresh(Before(s, acts, j), since, version)
  {
    if i < j {
      StaysFresh(s, acts, i, j - 1, since, version);
      Advance(s, acts, j - 1);
      StepKeepsFresh(Before(s, acts, j - 1), acts[j - 1], since, version);
    }
  }

  /** A clear leaves nothing stale behind: the cache is empty and, the lock being held,
      nothing is under construction. */
  lemma ClearIsFresh(s: State, acts: seq<Action>, i: nat)
    requires Initial(s) && CanRun(s, acts) && i < |acts| && acts[i].Clear?
    ensures Fresh(Before(s, acts, i + 1), i + 1, Before(s, acts, i).version)
  {
    Reachable(s, acts, i);
    Reachable(s, acts, i + 1);
    Advance(s, acts, i);
  }

  /** A getter whose return read comes after an invalidation's clear never returns an
      analyzer whose construction began before it, nor one built from an older configuration. */
  lemma ReturnedIsFresh(s: State, acts: seq<Action>, i: nat, j: nat)
    requires Initial(s) && CanRun(s, acts) && i < j < |acts|
    requires acts[i].Clear? && acts[j].ReturnRead?
    ensures var got := Before(s, acts, j).cached;
      got.Some? ==> got.value.born > i && got.value.version >= Before(s, acts, i).version
  {
    ClearIsFresh(s, acts, i);
    StaysFresh(s, acts, i + 1, j, i + 1, Before(s, acts, i).version);
  }

  lemma {:induction false} VersionGrows(s: State, acts: seq<Action>, i: nat, j: nat)
    requires CanRun(s, acts) && i <= j <= |acts|
    ensures Before(s, acts, i).version <= Before(s, acts, j).version
  {
    if i < j {
      VersionGrows(s, acts, i, j - 1);
      Advance(s, acts, j - 1);
    }
  }

  /** Write, then invalidate, then read: what is returned has seen the write. */
  lemma WriteThenInvalidateIsSeen(s: State, acts: seq<Action>, w: nat, i: nat, j: nat)
    requires Initial(s) && CanRun(s, acts) && w < i < j < |acts|
    requires acts[w].WriteConfig? && acts[i].Clear? && acts[j].ReturnRead?
    ensures var got := Before(s, acts, j).cached;
      got.Some? ==> got.value.version > Before(s, acts, w).version
  {
    Advance(s, acts, w);
    VersionGrows(s, acts, w + 1, i);
    ReturnedIsFresh(s, acts, i, j);
  }

  // ---- what a getter returns ----

  /** Until the next clear a filled cache keeps its analyzer. */
  lemma {:induction false} CachePersists(s: State, acts: seq<Action>, i: nat, j: nat)
    requires Initial(s) && CanRun(s, acts) && i <= j <= |acts|
    requires Before(s, acts, i).cached.Some?
    requires forall k :: i <= k < j ==> !acts[k].Clear?
    ensures Before(s, acts, j).cached == Before(s, acts, i).cached
  {
    if i < j {
      CachePersists(s, acts, i, j - 1);
      Reachable(s, acts, j - 1);
      Advance(s, acts, j - 1);
    }
  }

  predicate Knows(pc: Pc) {
    pc.Returning? || pc.LeaveFilled?
  }

  /** The steps by which thread `t` learns that the cache is filled. */
  predicate SawFilled(a: Action, t: nat) {
    a == CheckUnlocked(t) || a == CheckLocked(t) || a == Install(t)
  }

  lemma StepKnows(s: State, a: Action, t: nat)
    requires Inv(s) && Enabled(s, a) && t in Apply(s, a).pcs && Knows(Apply(s, a).pcs[t])
    ensures t in s.pcs
    ensures if SawFilled(a, t) then Apply(s, a).pcs[t].known == s.now && Apply(s, a).cached.Some?
            else Knows(s.pcs[t]) && Apply(s, a).pcs[t].known == s.pcs[t].known
  {
    if a.WriteConfig? || a.t != t { assert Apply(s, a).pcs[t] == s.pcs[t]; }
  }

  /** The action at position `known` is one by which `t` learns that the cache is filled,
      and after it the cache is. */
  ghost predicate SawAt(s: State, acts: seq<Action>, known: nat, t: nat)
    requires CanRun(s, acts)
  {
    known < |acts| && SawFilled(acts[known], t) && Before(s, acts, known + 1).cached.Some?
  }

  /** A thread about to do its return read has seen the cache filled: after the action
      at position `known`, which is one of its own, an analyzer was there. */
  lemma {:induction false} KnownWasFilled(s: State, acts: seq<Action>, j: nat, t: nat)
    requires Initial(s) && CanRun(s, acts) && j <= |acts|
    requires t in Before(s, acts, j).pcs && Knows(Before(s, acts, j).pcs[t])
    ensures var known := Before(s, acts, j).pcs[t].known; known < j && SawAt(s, acts, known, t)
  {
    if j > 0 {
      Reachable(s, acts, j - 1);
      Advance(s, acts, j - 1);
      StepKnows(Before(s, acts, j - 1), acts[j - 1], t);
      if !SawFilled(acts[j - 1], t) {
        KnownWasFilled(s, acts, j - 1, t);
      }
    }
  }

  /** A getter returns nothing exactly when, after the last moment it knew the cache to
      be filled, a clear fell and no analyzer was installed before its return read. */
  lemma NullReturnExactly(s: State, acts: seq<Action>, j: nat)
    requires Initial(s) && CanRun(s, acts) && j < |acts| && acts[j].ReturnRead?
    ensures var now := Before(s, acts, j);
      acts[j].t in now.pcs && now.pcs[acts[j].t].Returning? && now.pcs[acts[j].t].known < j &&
      (now.cached.None? <==>
       exists i :: now.pcs[acts[j].t].known < i < j && acts[i].Clear? && forall k :: i < k < j ==> !acts[k].Install?)
  {
    Advance(s, acts, j);
    KnownWasFilled(s, acts, j, acts[j].t);
    var known := Before(s, acts, j).pcs[acts[j].t].known;
    if Before(s, acts, j).cached.None? {
      var i := LastClear(s, acts, known + 1, j);
    }
    if i :| known < i < j && acts[i].Clear? && forall k :: i < k < j ==> !acts[k].Install? {
      ClearedStaysEmpty(s, acts, i, j);
    }
  }

  lemma ClearedStaysEmpty(s: State, acts: seq<Action>, i: nat, j: nat)
    requires CanRun(s, acts) && i < j <= |acts| && acts[i].Clear? && forall k :: i < k < j ==> !acts[k].Install?
    ensures Before(s, acts, j).cached.None?
  {
    Advance(s, acts, i);
    StaysEmpty(s, acts, i + 1, j);
  }

  lemma {:induction false} LastClear(s: State, acts: seq<Action>, i: nat, j: nat) returns (c: nat)
    requires Initial(s) && CanRun(s, acts) && i <= j <= |acts|
    requires Before(s, acts, i).cached.Some? && Before(s, acts, j).cached.None?
    ensures i <= c < j && acts[c].Clear? && forall k :: c < k < j ==> !acts[k].Install?
  {
    Advance(s, acts, j - 1);
    if acts[j - 1].Clear? {
      c := j - 1;
    } else {
      c := LastClear(s, acts, i, j - 1);
    }
  }

  lemma {:induction false} StaysEmpty(s: State, acts: seq<Action>, i: nat, j: nat)
    requires CanRun(s, acts) && i <= j <= |acts| && Before(s, acts, i).cached.None?
    requires forall k :: i <= k < j ==> !acts[k].Install?
    ensures Before(s, acts, j).cached.None?
  {
    if i < j {
      StaysEmpty(s, acts, i, j - 1);
      Advance(s, acts, j - 1);
    }
  }

  /** Without an invalidation every getter returns an analyzer, and always the same one. */
  lemma OneInstanceWithoutClears(s: State, acts: seq<Action>, i: nat, j: nat)
    requires Initial(s) && CanRun(s, acts) && i <= j < |acts|
    requires acts[i].ReturnRead? && acts[j].ReturnRead?
    requires forall k :: 0 <= k < j ==> !acts[k].Clear?
    ensures Before(s, acts, i).cached.Some? && Before(s, acts, j).cached == Before(s, acts, i).cached
  {
    NullReturnExactly(s, acts, i);
    CachePersists(s, acts, i, j);
  }

  // ---- creation accounting ----

  ghost function Installs(acts: seq<Action>, i: nat, j: nat): nat
    requires i <= j <= |acts|
  {
    if i == j then 0 else Installs(acts, i, j - 1) + if acts[j - 1].Install? then 1 else 0
  }

  /** Clears that found an analyzer in the cache. */
  ghost function LiveClears(s: State, acts: seq<Action>, i: nat, j: nat): nat
    requires CanRun(s, acts) && i <= j <= |acts|
  {
    if i == j then 0
    else LiveClears(s, acts, i, j - 1) + if acts[j - 1].Clear? && Before(s, acts, j - 1).cached.Some? then 1 else 0
  }

  ghost function Filled(s: State): nat {
    if s.cached.Some? then 1 else 0
  }

  lemma StepBalances(s: State, a: Action)
    requires Inv(s) && Enabled(s, a)
    ensures (if a.Install? then 1 else 0) + Filled(s) ==
            (if a.Clear? && s.cached.Some? then 1 else 0) + Filled(Apply(s, a))
  {}

  /** Over any stretch of a run, analyzers installed are those cleared while alive plus
      the change in what is cached. */
  lemma {:induction false} InstallsBalance(s: State, acts: seq<Action>, i: nat, j: nat)
    requires Initial(s) && CanRun(s, acts) && i <= j <= |acts|
    ensures Installs(acts, i, j) + Filled(Before(s, acts, i)) == LiveClears(s, acts, i, j) + Filled(Before(s, acts, j))
  {
    if i < j {
      InstallsBalance(s, acts, i, j - 1);
      Reachable(s, acts, j - 1);
      Advance(s, acts, j - 1);
      StepBalances(Before(s, acts, j - 1), acts[j - 1]);
    }
  }

  /** Between two effective invalidations at most one analyzer is installed. */
  lemma AtMostOneBetweenClears(s: State, acts: seq<Action>, i: nat, j: nat)
    requires Initial(s) && CanRun(s, acts) && i <= j <= |acts|
    requires LiveClears(s, acts, i, j) == 0
    ensures Installs(acts, i, j) <= 1
  {
    InstallsBalance(s, acts, i, j);
  }

  // ---- a getter that returns nothing ----

  const NULL_RUN: seq<Action> := [
    StartGet(0), CheckUnlocked(0), Acquire(0), CheckLocked(0), Snapshot(0), Install(0), Release(0),
    StartClear(1), Acquire(1), Clear(1), ReturnRead(0)]

  const TWO_IDLE: State := State(map[0 := Idle, 1 := Idle], None, None, 0, 0)

  function NullState(k: nat): State
    requires k <= 10
  {
    var getter :=
      if k == 0 then Idle else if k == 1 then FirstCheck else if k == 2 then WantLock else if k == 3 then SecondCheck
      else if k == 4 then Building(3) else if k == 5 then Built(Analyzer(3, 0)) else if k == 6 then LeaveFilled(5)
      else Returning(5);
    var clearer := if k < 8 then Idle else if k == 8 then WantClear else if k == 9 then Clearing else LeaveCleared;
    State(map[0 := getter, 1 := clearer],
          if 3 <= k <= 6 then Some(0) else if 9 <= k then Some(1) else None,
          if 6 <= k <= 9 then Some(Analyzer(3, 0)) else None, 0, k)
  }

  lemma NullStep(k: nat)
    requires k < 10
    ensures Enabled(NullState(k), NULL_RUN[k]) && Apply(NullState(k), NULL_RUN[k]) == NullState(k + 1)
  {
    assert Apply(NullState(k), NULL_RUN[k]).pcs == NullState(k + 1).pcs;
  }

  lemma {:induction false} NullRunPrefix(k: nat)
    requires k <= 10
    ensures CanRun(TWO_IDLE, NULL_RUN[..k]) && After(TWO_IDLE, NULL_RUN[..k]) == NullState(k)
  {
    if k > 0 {
      NullRunPrefix(k - 1);
      assert NULL_RUN[..k][..k - 1] == NULL_RUN[..k - 1];
      NullStep(k - 1);
    }
  }

  /** The return read is outside the lock: an invalidation that slips in before it makes
      the getter return nothing, right after it installed an analyzer. */
  lemma GetterMayReturnNull()
    ensures Initial(TWO_IDLE) && CanRun(TWO_IDLE, NULL_RUN)
    ensures NULL_RUN[10].ReturnRead? && Before(TWO_IDLE, NULL_RUN, 10).cached.None?
  {
    NullRunPrefix(10);
    assert NULL_RUN[..11] == NULL_RUN;
    assert NULL_RUN[..11][..10] == NULL_RUN[..10];
  }
}
