/** The calls of the ARM cache from begin to end: which steps a thread takes, told by the
    steps it has taken; where a cached analyzer comes from; and what a whole invalidation
    guarantees to the calls after it. */
module ArmCalls {
  import opened Options
  import opened ArmCache

  predicate OwnedBy(a: Action, t: nat) {
    !a.WriteConfig? && a.t == t
  }

  /** The steps of a thread so far, each with whether the cache was filled when it was taken. */
  ghost function Past(s: State, acts: seq<Action>, t: nat): seq<(Action, bool)>
    requires CanRun(s, acts)
    decreases |acts|
  {
    if acts == [] then []
    else
      var front, last := acts[..|acts| - 1], acts[|acts| - 1];
      Past(s, front, t) + if OwnedBy(last, t) then [(last, After(s, front).cached.Some?)] else []
  }

  /** The steps that may come next in `_get_analyzer` and `_invalidate_arm_analyzer_cache`: a
      filled cache is returned without the lock; an empty one is checked again under it; only
      if it is still empty an analyzer is built and installed; an invalidation takes the lock
      and clears. A failed construction leaves the lock and raises. */
  predicate ComesNext(past: seq<(Action, bool)>, t: nat, a: Action) {
    if past == [] then a == StartGet(t) || a == StartClear(t)
    else
      var n := |past|;
      var (last, filled) := past[n - 1];
      var before := if n > 1 then past[n - 2].0 else last;
      match last
      case StartGet(_) => a == CheckUnlocked(t)
      case CheckUnlocked(_) => a == if filled then ReturnRead(t) else Acquire(t)
      case Acquire(_) => a == if before.StartClear? then Clear(t) else CheckLocked(t)
      case CheckLocked(_) => if filled then a == Release(t) else a == Snapshot(t) || a == BuildFails(t)
      case Snapshot(_) => a == Install(t) || a == BuildFails(t)
      case Install(_) => a == Release(t)
      case BuildFails(_) => a == Release(t)
      case StartClear(_) => a == Acquire(t)
      case Clear(_) => a == Release(t)
      case Release(_) =>
        if before.CheckLocked? || before.Install? then a == ReturnRead(t) else a == StartGet(t) || a == StartClear(t)
      case ReturnRead(_) => a == StartGet(t) || a == StartClear(t)
      case WriteConfig => false
  }

  /** Where the steps taken leave a thread. */
  ghost predicate Leaves(past: seq<(Action, bool)>, pc: Pc) {
    if past == [] then pc.Idle?
    else
      var n := |past|;
      var (last, filled) := past[n - 1];
      var before := if n > 1 then past[n - 2].0 else last;
      match last
      case StartGet(_) => pc.FirstCheck?
      case CheckUnlocked(_) => if filled then pc.Returning? else pc.WantLock?
      case Acquire(_) => n > 1 && if before.StartClear? then pc.Clearing? else pc.SecondCheck?
      case CheckLocked(_) => if filled then pc.LeaveFilled? else pc.Building?
      case Snapshot(_) => pc.Built?
      case Install(_) => pc.LeaveFilled?
      case BuildFails(_) => pc.LeaveFailed?
      case StartClear(_) => pc.WantClear?
      case Clear(_) => pc.LeaveCleared?
      case Release(_) => n > 1 && if before.CheckLocked? || before.Install? then pc.Returning? else pc.Idle?
      case ReturnRead(_) => pc.Idle?
      case WriteConfig => false
  }

  lemma {:induction false} PastLeaves(s: State, acts: seq<Action>, t: nat)
    requires Initial(s) && CanRun(s, acts) && t in s.pcs
    ensures t in After(s, acts).pcs && Leaves(Past(s, acts, t), After(s, acts).pcs[t])
    decreases |acts|
  {
    if acts != [] {
      var front, last := acts[..|acts| - 1], acts[|acts| - 1];
      PastLeaves(s, front, t);
      var now := After(s, front);
      if OwnedBy(last, t) {
        OneMoreStep(now, Past(s, front, t), t, last);
      } else {
        assert Past(s, acts, t) == Past(s, front, t);
      }
    }
  }

  lemma OneMoreStep(s: State, past: seq<(Action, bool)>, t: nat, a: Action)
    requires OwnedBy(a, t) && t in s.pcs && Leaves(past, s.pcs[t]) && Enabled(s, a)
    ensures Leaves(past + [(a, s.cached.Some?)], Apply(s, a).pcs[t])
  {
    var more := past + [(a, s.cached.Some?)];
    assert more[|more| - 1] == (a, s.cached.Some?);
    assert past != [] ==> more[|more| - 2] == past[|past| - 1];
  }

  lemma StepsExactly(s: State, past: seq<(Action, bool)>, t: nat, a: Action)
    requires OwnedBy(a, t) && t in s.pcs && Leaves(past, s.pcs[t])
    ensures Enabled(s, a) <==> ComesNext(past, t, a) && (a.Acquire? ==> s.lock.None?)
  {}

  /** A thread's next step is exactly one that its own steps so far call for, and it waits for
      nothing but the lock. */
  lemma NextExactly(s: State, acts: seq<Action>, t: nat, a: Action)
    requires Initial(s) && CanRun(s, acts) && t in s.pcs && OwnedBy(a, t)
    ensures Enabled(After(s, acts), a) <==> ComesNext(Past(s, acts, t), t, a) && (a.Acquire? ==> After(s, acts).lock.None?)
  {
    PastLeaves(s, acts, t);
    StepsExactly(After(s, acts), Past(s, acts, t), t, a);
  }

  // ---- where an analyzer comes from ----

  /** No step of the thread in between. */
  ghost predicate Quiet(acts: seq<Action>, t: nat, i: nat, j: nat) {
    forall k :: i <= k < j && k < |acts| ==> !OwnedBy(acts[k], t)
  }

  /** Since position `b`, when it found the cache empty under the lock, the thread is building
      and has done nothing else. */
  ghost predicate BeganAt(s: State, acts: seq<Action>, t: nat, b: nat, n: nat)
    requires CanRun(s, acts)
  {
    && b < n <= |acts| && acts[b] == CheckLocked(t) && Before(s, acts, b).cached.None?
    && Quiet(acts, t, b + 1, n)
  }

  /** The analyzer was begun at `a.born` and took its configuration at position `p`. */
  ghost predicate BuiltAt(s: State, acts: seq<Action>, t: nat, a: Analyzer, p: nat, n: nat)
    requires CanRun(s, acts)
  {
    p < n <= |acts| && BeganAt(s, acts, t, a.born, p) && acts[p] == Snapshot(t) && Quiet(acts, t, p + 1, n)
    && a.version == Before(s, acts, p).version
  }

  ghost predicate Traced(s: State, acts: seq<Action>, t: nat, pc: Pc, n: nat)
    requires CanRun(s, acts)
  {
    && (pc.Building? ==> BeganAt(s, acts, t, pc.born, n))
    && (pc.Built? ==> exists p: nat :: BuiltAt(s, acts, t, pc.a, p, n))
  }

  lemma TracedOn(s: State, acts: seq<Action>, t: nat, pc: Pc, n: nat)
    requires CanRun(s, acts) && n < |acts| && !OwnedBy(acts[n], t) && Traced(s, acts, t, pc, n)
    ensures Traced(s, acts, t, pc, n + 1)
  {
    if pc.Built? {
      var p: nat :| BuiltAt(s, acts, t, pc.a, p, n);
      assert BuiltAt(s, acts, t, pc.a, p, n + 1);
    }
  }

  /** The thread's own step keeps track of what it builds. */
  lemma TracedStep(s: State, acts: seq<Action>, t: nat, n: nat)
    requires Initial(s) && CanRun(s, acts) && n < |acts| && OwnedBy(acts[n], t)
    requires t in Before(s, acts, n).pcs && Traced(s, acts, t, Before(s, acts, n).pcs[t], n)
    ensures t in Before(s, acts, n + 1).pcs && Traced(s, acts, t, Before(s, acts, n + 1).pcs[t], n + 1)
  {
    Reachable(s, acts, n);
    Advance(s, acts, n);
    var pc := Before(s, acts, n + 1).pcs[t];
    if acts[n].Snapshot? {
      assert BuiltAt(s, acts, t, pc.a, n, n + 1);
    } else if acts[n].CheckLocked? {
      assert pc.Building? ==> BeganAt(s, acts, t, pc.born, n + 1);
    } else {
      assert !pc.Building? && !pc.Built?;
    }
  }

  lemma {:induction false} UnderConstruction(s: State, acts: seq<Action>, t: nat, n: nat)
    requires Initial(s) && CanRun(s, acts) && n <= |acts| && t in Before(s, acts, n).pcs
    ensures Traced(s, acts, t, Before(s, acts, n).pcs[t], n)
    decreases n
  {
    if n > 0 {
      Advance(s, acts, n - 1);
      UnderConstruction(s, acts, t, n - 1);
      if OwnedBy(acts[n - 1], t) {
        TracedStep(s, acts, t, n - 1);
      } else {
        TracedOn(s, acts, t, Before(s, acts, n - 1).pcs[t], n - 1);
      }
    }
  }

  /** What is installed was begun when its thread found the cache empty under the lock, and was
      built from the configuration as it was at one moment between that and the install. */
  lemma InstalledFrom(s: State, acts: seq<Action>, k: nat) returns (p: nat)
    requires Initial(s) && CanRun(s, acts) && k < |acts| && acts[k].Install?
    ensures Before(s, acts, k + 1).cached.Some?
    ensures BuiltAt(s, acts, acts[k].t, Before(s, acts, k + 1).cached.value, p, k)
  {
    Advance(s, acts, k);
    UnderConstruction(s, acts, acts[k].t, k);
    p :| BuiltAt(s, acts, acts[k].t, Before(s, acts, k).pcs[acts[k].t].a, p, k);
  }

  function Writes(acts: seq<Action>): nat {
    if acts == [] then 0 else Writes(acts[..|acts| - 1]) + if acts[|acts| - 1].WriteConfig? then 1 else 0
  }

  /** The configuration's version counts its writes. */
  lemma {:induction false} VersionCounts(s: State, acts: seq<Action>)
    requires CanRun(s, acts)
    ensures After(s, acts).version == s.version + Writes(acts)
    decreases |acts|
  {
    if acts != [] { VersionCounts(s, acts[..|acts| - 1]); }
  }

  /** Only installs fill the cache and only clears empty it. */
  lemma CacheStep(s: State, acts: seq<Action>, k: nat)
    requires CanRun(s, acts) && k < |acts|
    ensures acts[k].Clear? ==> Before(s, acts, k + 1).cached.None?
    ensures !acts[k].Clear? && !acts[k].Install? ==> Before(s, acts, k + 1).cached == Before(s, acts, k).cached
  {
    Advance(s, acts, k);
  }

  // ---- whole invalidations ----

  /** From its start to its own clear an invalidation is on its way. */
  ghost predicate OnItsWay(pc: Pc) {
    pc.WantClear? || pc.Clearing?
  }

  lemma {:induction false} StillOnItsWay(s: State, acts: seq<Action>, i: nat, j: nat)
    requires Initial(s) && CanRun(s, acts) && i < j <= |acts| && acts[i].StartClear?
    requires forall k :: i < k < j ==> acts[k] != Clear(acts[i].t)
    ensures acts[i].t in Before(s, acts, j).pcs && OnItsWay(Before(s, acts, j).pcs[acts[i].t])
    decreases j
  {
    Advance(s, acts, j - 1);
    if j - 1 > i { StillOnItsWay(s, acts, i, j - 1); }
  }

  /** An invalidation that was begun and is over has cleared the cache in between. */
  lemma InvalidationClears(s: State, acts: seq<Action>, i: nat, j: nat) returns (c: nat)
    requires Initial(s) && CanRun(s, acts) && i < j <= |acts| && acts[i].StartClear?
    requires acts[i].t in Before(s, acts, j).pcs && Before(s, acts, j).pcs[acts[i].t].Idle?
    ensures i < c < j && acts[c] == Clear(acts[i].t)
  {
    if forall k :: i < k < j ==> acts[k] != Clear(acts[i].t) {
      StillOnItsWay(s, acts, i, j);
    }
    c :| i < c < j && acts[c] == Clear(acts[i].t);
  }

  /** Over whole calls: after a write, and an invalidation begun after it and finished, every
      return yields an analyzer that has seen the write, or nothing; and never one begun before
      the invalidation was. */
  lemma InvalidationIsSeen(s: State, acts: seq<Action>, w: nat, i: nat, j: nat, r: nat)
    requires Initial(s) && CanRun(s, acts) && w < i < j <= r < |acts|
    requires acts[w].WriteConfig? && acts[i].StartClear? && acts[r].ReturnRead?
    requires acts[i].t in Before(s, acts, j).pcs && Before(s, acts, j).pcs[acts[i].t].Idle?
    ensures var got := Before(s, acts, r).cached;
      got.Some? ==> got.value.version > Before(s, acts, w).version && got.value.born > i
  {
    var c := InvalidationClears(s, acts, i, j);
    WriteThenInvalidateIsSeen(s, acts, w, c, r);
    ReturnedIsFresh(s, acts, c, r);
  }
}
