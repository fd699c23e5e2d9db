/** What the runs of the engine guarantee about locks: announcements on ancestors, wake-ups, what a finished
    transaction leaves behind, and how long a refusal lasts. */
module EngineLocks {
  import opened Engine
  import opened EngineSafety
  import opened Ids
  import opened LockModes
  import opened LockTable
  import opened LockSafety
  import opened LockRuns
  import opened LockHierarchy
  import opened LockGranularity
  import opened Wrappers

  // ---------------------------------------------------------------- announcements

  ghost predicate SafeAction(s: Sys, a: Action) {
    a.Access? ==> SafeRun(s.locks, a.lockSteps)
  }

  /** No replacement in the run takes away what announces a lock below. */
  ghost predicate SafeActions(actions: seq<Action>) {
    actions == [] ||
    (var n := |actions| - 1; SafeActions(actions[..n]) && SafeAction(After(actions[..n]), actions[n]))
  }

  ghost predicate CoveringAction(s: Sys, a: Action) {
    a.Access? ==> CoverOnlyRun(s.locks, a.lockSteps)
  }

  /** Every replacement from action `from` on is by a covering mode. */
  ghost predicate Covering(actions: seq<Action>, from: nat) {
    |actions| <= from ||
    (var n := |actions| - 1; Covering(actions[..n], from) && CoveringAction(After(actions[..n]), actions[n]))
  }

  lemma OkParts(actions: seq<Action>)
    requires IsRun(actions)
    ensures var s := After(actions);
            && Inv(s.locks) && HierarchyOk(s.locks) && Within(s.locks, s.store.Keys) && Acyclic(s.locks.parent)
            && (forall t :: t in s.active ==> t !in s.locks.completed)
            && (forall r :: r in s.store <==> 1 <= r < s.nextRes)
  {
    RunKeepsOk(actions);
    hide After, IsRun, Inv, Within, TraceOk, Covered, StrictUnder, Executed, LogAgrees;
  }

  lemma AccessKeepsAnnounced(s: Table, t: TxnId, r: ResId, m: LockType, steps: seq<Step>, ok: bool)
    requires Inv(s) && HierarchyOk(s) && AllAnnounced(s) && m != NONE
    requires Serves(s, t, Plan(s.parent, r, m), steps, ok) && (SafeRun(s, steps) || CoverOnlyRun(s, steps))
    ensures AllAnnounced(Run(s, steps)) && SafeRun(s, steps)
  {
    RequestLockIsDisciplined(s, t, r, m, steps, ok);
    hide Serves, Plan, Run, Legal, DisciplinedRun, SafeRun, CoverOnlyRun, Inv, AllAnnounced;
    Granularity(s, steps);
  }

  lemma StepWithoutReplacement(s: Table, step: Step)
    requires Inv(s) && HierarchyOk(s) && AllAnnounced(s) && Enabled(s, step) && Disciplined(s, step) && !step.Request?
    ensures AllAnnounced(LockTable.Apply(s, step))
  {
    hide LockTable.Apply, Inv, HierarchyOk, AllAnnounced;
    StepKeepsAllAnnounced(s, step);
  }

  lemma NewChildIsFresh(s: Table, r: ResId, up: ResId, rs: set<ResId>)
    requires Within(s, rs) && r !in rs && up in rs
    ensures FreshChild(s, r, up)
  {
  }

  lemma ActionKeepsAnnounced(s: Sys, a: Action)
    requires Inv(s.locks) && HierarchyOk(s.locks) && AllAnnounced(s.locks)
    requires Within(s.locks, s.store.Keys) && s.nextRes !in s.store
    requires Allowed(s, a) && (SafeAction(s, a) || CoveringAction(s, a))
    ensures AllAnnounced(Perform(s, a).locks) && SafeAction(s, a)
  {
    hide Inv, HierarchyOk, AllAnnounced, Within, LockTable.Apply, Run, Serves, Plan, SafeRun, CoverOnlyRun;
    match a
    case Begin =>
    case Create(up, v) =>
      if up.Some? {
        NewChildIsFresh(s.locks, s.nextRes, up.value, s.store.Keys);
        StepWithoutReplacement(s.locks, SetParent(s.nextRes, up.value));
      }
    case Access(t, r, w, steps, ok) =>
      AccessKeepsAnnounced(s.locks, t, r, ModeOf(w), steps, ok);
      assert Perform(s, a).locks == Run(s.locks, steps);
    case Finish(t, commit) =>
      StepWithoutReplacement(s.locks, Complete(t));
    case Checkpoint =>
    case Disown(_) =>
  }

  /** In every run of the engine whose replacements are safe, and in particular when they all cover, whoever
      holds or awaits a lock announces it on the parent by a mode covering its intention. */
  lemma {:induction false} EngineAnnounces(actions: seq<Action>)
    requires IsRun(actions) && (SafeActions(actions) || Covering(actions, 0))
    ensures AllAnnounced(After(actions).locks) && SafeActions(actions)
    decreases |actions|
  {
    hide Perform, Allowed, AllAnnounced, Inv, HierarchyOk, Within, SafeAction, CoveringAction;
    if actions == [] {
      NothingToAnnounce();
    } else {
      var n := |actions| - 1;
      OkParts(actions[..n]);
      EngineAnnounces(actions[..n]);
      ActionKeepsAnnounced(After(actions[..n]), actions[n]);
    }
  }

  lemma NothingToAnnounce()
    ensures AllAnnounced(EMPTY)
  {
  }

  /** So in such a run nobody reads a node while another transaction holds or awaits a write below it. */
  lemma NoReaderAboveWriter(actions: seq<Action>, a: ResId, d: ResId, t: TxnId, x: TxnId)
    requires IsRun(actions) && (SafeActions(actions) || Covering(actions, 0))
    requires var s := After(actions); Above(s.locks.parent, a, d) && a != d && t != x && x in s.active
    requires Lock(t, SHARED) in LocksOn(After(actions).locks, a)
    ensures !Wants(After(actions).locks, x, d, EXCLUSIVE)
  {
    OkParts(actions);
    EngineAnnounces(actions);
    var s := After(actions);
    hide After, IsRun, Inv, HierarchyOk, AllAnnounced, Above, SafeActions, Covering, Within;
    if Wants(s.locks, x, d, EXCLUSIVE) {
      NoConflictAcrossLevels(s.locks, a, d, t, SHARED, x, EXCLUSIVE);
    }
  }

  // ---------------------------------------------------------------- wake-ups

  lemma {:induction false} RunKeepsHeadBlocked(s: Table, steps: seq<Step>, r: ResId)
    requires Inv(s) && Legal(s, steps) && CoverOnlyRun(s, steps) && HeadBlocked(s, r)
    ensures HeadBlocked(Run(s, steps), r)
    decreases |steps|
  {
    hide Inv, HeadBlocked, Enabled, LockTable.Apply;
    if steps != [] {
      var n := |steps| - 1;
      RunKeepsInv(s, steps[..n]);
      RunKeepsHeadBlocked(s, steps[..n], r);
      CoveringKeepsBlocking(Run(s, steps[..n]), steps[n]);
      StepKeepsHeadBlocked(Run(s, steps[..n]), steps[n], r);
    }
  }

  lemma CoveringKeepsBlocking(s: Table, step: Step)
    requires CoverOnly(s, step)
    ensures BlockingKept(s, step)
  {
  }

  lemma ActionKeepsHeadBlocked(s: Sys, a: Action, r: ResId)
    requires Inv(s.locks) && HierarchyOk(s.locks) && Allowed(s, a) && CoveringAction(s, a) && HeadBlocked(s.locks, r)
    ensures HeadBlocked(Perform(s, a).locks, r)
  {
    hide Inv, LockTable.Apply, Run, Serves, Plan, CoverOnlyRun, HeadBlocked;
    match a
    case Begin =>
    case Create(up, v) =>
      if up.Some? {
        StepKeepsHeadBlocked(s.locks, SetParent(s.nextRes, up.value), r);
      }
    case Access(t, q, w, steps, ok) =>
      RequestLockIsDisciplined(s.locks, t, q, ModeOf(w), steps, ok);
      RunKeepsHeadBlocked(s.locks, steps, r);
      assert Perform(s, a).locks == Run(s.locks, steps);
    case Finish(t, commit) =>
      StepKeepsHeadBlocked(s.locks, Complete(t), r);
    case Checkpoint =>
    case Disown(_) =>
  }

  /** No lost wake-up: in every run whose replacements cover, whoever is first in a queue conflicts with a lock
      that is held. */
  lemma {:induction false} CoveringRunsLoseNoWakeup(actions: seq<Action>, r: ResId)
    requires IsRun(actions) && Covering(actions, 0)
    ensures HeadBlocked(After(actions).locks, r)
    decreases |actions|
  {
    hide Perform, Allowed, Inv, HierarchyOk, Within, CoveringAction;
    if actions != [] {
      var n := |actions| - 1;
      OkParts(actions[..n]);
      CoveringRunsLoseNoWakeup(actions[..n], r);
      ActionKeepsHeadBlocked(After(actions[..n]), actions[n], r);
    }
  }

  // ---------------------------------------------------------------- flat runs

  /** No resource has a parent: no resource name was split into levels. */
  ghost predicate Flat(s: Sys) {
    s.locks.parent == map[]
  }

  ghost predicate FlatMode(m: LockType) {
    m == SHARED || m == EXCLUSIVE
  }

  /** Only shared and exclusive modes are held and awaited. */
  ghost predicate FlatOn(ls: multiset<Lock>, q: seq<LockRequest>) {
    && (forall l :: l in ls ==> FlatMode(l.mode))
    && (forall i :: 0 <= i < |q| ==> FlatMode(q[i].mode))
  }

  ghost predicate FlatLocks(locks: Table) {
    forall r :: FlatOn(LocksOn(locks, r), QueueOn(locks, r))
  }

  lemma RefilledIsFlat(ls: multiset<Lock>, q: seq<LockRequest>, t: TxnId)
    requires forall l :: l in ls ==> FlatMode(l.mode)
    requires forall i :: 0 <= i < |q| ==> FlatMode(q[i].mode)
    ensures forall l :: l in RefilledLocks(ls, q, t) ==> FlatMode(l.mode)
    ensures forall i :: 0 <= i < |RefilledQueue(ls, q, t)| ==> FlatMode(RefilledQueue(ls, q, t)[i].mode)
  {
    hide Admit, FlatMode;
    var k := Admit(Drop(ls, t), q);
    forall l | l in RefilledLocks(ls, q, t) ensures FlatMode(l.mode) {
      assert l in ls || l in q[..k];
    }
  }

  lemma ChangedIsFlat(ls: multiset<Lock>, q: seq<LockRequest>, t: TxnId, c: Change)
    requires !c.Refilled? && forall l :: l in ls ==> FlatMode(l.mode)
    requires forall i :: 0 <= i < |q| ==> FlatMode(q[i].mode)
    requires c.Added? || c.Swapped? || c.Waits? ==> FlatMode(c.mode)
    ensures forall l :: l in LocksAfter(ls, q, t, c) ==> FlatMode(l.mode)
    ensures forall i :: 0 <= i < |QueueAfter(ls, q, t, c)| ==> FlatMode(QueueAfter(ls, q, t, c)[i].mode)
  {
    hide FlatMode;
    forall l | l in LocksAfter(ls, q, t, c) ensures FlatMode(l.mode) {
      assert l in ls || ((c.Added? || c.Swapped?) && l == Lock(t, c.mode));
    }
  }

  lemma ChangeKeepsFlat(ls: multiset<Lock>, q: seq<LockRequest>, t: TxnId, c: Change)
    requires FlatOn(ls, q)
    requires c.Added? || c.Swapped? || c.Waits? ==> FlatMode(c.mode)
    ensures FlatOn(LocksAfter(ls, q, t, c), QueueAfter(ls, q, t, c))
  {
    hide FlatMode, RefilledLocks, RefilledQueue;
    if c.Refilled? {
      RefilledIsFlat(ls, q, t);
    } else {
      ChangedIsFlat(ls, q, t, c);
    }
  }

  lemma StepKeepsFlatLocks(s: Table, step: Step)
    requires Inv(s) && FlatLocks(s) && Enabled(s, step) && (step.Request? ==> FlatMode(step.mode))
    ensures FlatLocks(LockTable.Apply(s, step))
  {
    var s' := LockTable.Apply(s, step);
    hide LockTable.Apply, Inv, FlatOn, LocksAfter, QueueAfter, Guarded;
    forall r ensures FlatOn(LocksOn(s', r), QueueOn(s', r)) {
      StepChanges(s, step, r);
      ChangeModes(s, step, r);
      ChangeKeepsFlat(LocksOn(s, r), QueueOn(s, r), Actor(step), ChangeOn(s, step, r));
    }
  }

  lemma ChangeModes(s: Table, step: Step, r: ResId)
    ensures var c := ChangeOn(s, step, r);
            c.Added? || c.Swapped? || c.Waits? ==> step.Request? && c.mode == step.mode
  {
  }

  lemma FlatPlan(r: ResId, m: LockType)
    requires FlatMode(m)
    ensures Plan(map[], r, m) == [(r, m)]
  {
  }

  lemma AttachedIsNotFlat(s: Sys, up: ResId, v: int)
    ensures !Flat(Perform(s, Create(Some(up), v)))
  {
    assert s.nextRes in Perform(s, Create(Some(up), v)).locks.parent;
  }

  /** Parents are never taken away, so a state without them was reached without them. */
  lemma FlatBackwards(s: Sys, a: Action)
    requires SysOk(s) && Allowed(s, a) && Flat(Perform(s, a))
    ensures Flat(s)
  {
    match a
    case Begin =>
    case Create(up, v) =>
      if up.Some? {
        AttachedIsNotFlat(s, up.value, v);
      }
    case Access(t, r, w, steps, ok) =>
      AccessLocks(s.locks, t, r, w, steps, ok);
    case Finish(t, commit) =>
      StepAround(s.locks, Complete(t));
    case Checkpoint =>
    case Disown(_) =>
  }

  lemma FlatStart()
    ensures FlatLocks(START.locks)
  {
  }

  /** With shared and exclusive locks only, every replacement strengthens. */
  lemma FlatIsCoverOnly(s: Table, step: Step)
    requires FlatLocks(s) && Enabled(s, step) && (step.Request? ==> FlatMode(step.mode))
    ensures CoverOnly(s, step)
  {
    if step.Request? && RequestChange(s, step).Swapped? {
      assert FlatOn(LocksOn(s, step.res), QueueOn(s, step.res));
      assert Lock(step.txn, step.found.value) in LocksOn(s, step.res);
    }
  }

  lemma FlatAccess(s: Table, t: TxnId, r: ResId, m: LockType, steps: seq<Step>, ok: bool)
    requires Inv(s) && FlatLocks(s) && s.parent == map[] && FlatMode(m)
    requires Serves(s, t, Plan(s.parent, r, m), steps, ok)
    ensures FlatLocks(Run(s, steps)) && CoverOnlyRun(s, steps)
  {
    hide FlatLocks, LockTable.Apply, Inv, Granted, CoverOnly;
    FlatPlan(r, m);
    if t !in s.completed {
      assert steps == [steps[0]];
      assert steps[..0] == [];
      assert Run(s, steps) == LockTable.Apply(s, steps[0]);
      StepKeepsFlatLocks(s, steps[0]);
      FlatIsCoverOnly(s, steps[0]);
    }
  }

  lemma ActionKeepsFlat(s: Sys, a: Action)
    requires Inv(s.locks) && FlatLocks(s.locks) && Allowed(s, a) && Flat(s) && Flat(Perform(s, a))
    ensures FlatLocks(Perform(s, a).locks) && CoveringAction(s, a)
  {
    hide FlatLocks, LockTable.Apply, Inv, Run, Serves, CoverOnlyRun;
    match a
    case Begin =>
    case Create(up, v) =>
      if up.Some? {
        AttachedIsNotFlat(s, up.value, v);
      }
    case Access(t, r, w, steps, ok) =>
      FlatAccess(s.locks, t, r, ModeOf(w), steps, ok);
      assert Perform(s, a).locks == Run(s.locks, steps);
    case Finish(t, commit) =>
      StepKeepsFlatLocks(s.locks, Complete(t));
    case Checkpoint =>
    case Disown(_) =>
  }

  /** Without hierarchy every run is covering. */
  lemma {:induction false} FlatRunsAreCovering(actions: seq<Action>)
    requires IsRun(actions) && Flat(After(actions))
    ensures Covering(actions, 0) && FlatLocks(After(actions).locks)
    decreases |actions|
  {
    hide FlatLocks, SysOk, Flat, Perform, Inv, CoveringAction, HierarchyOk, Within;
    if actions == [] {
      FlatStart();
    } else {
      var n := |actions| - 1;
      OkParts(actions[..n]);
      RunKeepsOk(actions[..n]);
      FlatBackwards(After(actions[..n]), actions[n]);
      FlatRunsAreCovering(actions[..n]);
      ActionKeepsFlat(After(actions[..n]), actions[n]);
    }
  }

  /** So without hierarchy no wake-up is lost. */
  lemma FlatRunsLoseNoWakeup(actions: seq<Action>, r: ResId)
    requires IsRun(actions) && Flat(After(actions))
    ensures HeadBlocked(After(actions).locks, r)
  {
    hide After, IsRun, HeadBlocked, Covering, Flat, FlatLocks;
    FlatRunsAreCovering(actions);
    CoveringRunsLoseNoWakeup(actions, r);
  }

  // ---------------------------------------------------------------- what a finished transaction leaves behind

  lemma {:induction false} RequestsKeepInvolved(s: Table, steps: seq<Step>, t: TxnId, r: ResId)
    requires Inv(s) && Legal(s, steps) && t in s.completed
    requires forall k :: 0 <= k < |steps| ==> steps[k].Request?
    ensures t in Run(s, steps).completed
    ensures Involved(Run(s, steps), t, r) <==> Involved(s, t, r)
    decreases |steps|
  {
    hide Inv, Involved, Enabled, LockTable.Apply;
    if steps != [] {
      var n := |steps| - 1;
      RunKeepsInv(s, steps[..n]);
      RequestsKeepInvolved(s, steps[..n], t, r);
      StepAround(Run(s, steps[..n]), steps[n]);
      CompletedStaysInvolvedIff(Run(s, steps[..n]), steps[n], t, r);
    }
  }

  lemma {:induction false} ClimbedAreRequests(s: Table, t: TxnId, plan: seq<(ResId, LockType)>, steps: seq<Step>)
    requires Climbed(s, t, plan, steps)
    ensures forall k :: 0 <= k < |steps| ==> steps[k].Request?
    decreases |steps|
  {
    hide Enabled, Granted, Run;
    if steps != [] {
      var n := |steps| - 1;
      ClimbedAreRequests(s, t, plan, steps[..n]);
      assert forall k :: 0 <= k < n ==> steps[k] == steps[..n][k];
    }
  }

  lemma ServedAreRequests(s: Table, t: TxnId, plan: seq<(ResId, LockType)>, steps: seq<Step>, ok: bool)
    requires Serves(s, t, plan, steps, ok)
    ensures forall k :: 0 <= k < |steps| ==> steps[k].Request?
  {
    hide Enabled, Granted, Run;
    if steps != [] {
      var n := |steps| - 1;
      ClimbedAreRequests(s, t, plan, if ok then steps else steps[..n]);
      assert forall k :: 0 <= k < n ==> steps[k] == steps[..n][k];
    }
  }

  lemma AccessKeepsInvolved(s: Table, t: TxnId, q: ResId, m: LockType, steps: seq<Step>, ok: bool, x: TxnId, r: ResId)
    requires Inv(s) && Acyclic(s.parent) && m != NONE && Serves(s, t, Plan(s.parent, q, m), steps, ok)
    requires x in s.completed
    ensures Involved(Run(s, steps), x, r) <==> Involved(s, x, r)
  {
    RequestLockIsDisciplined(s, t, q, m, steps, ok);
    ServedAreRequests(s, t, Plan(s.parent, q, m), steps, ok);
    hide Serves, Plan, Run, Legal, DisciplinedRun, Inv, Involved;
    RequestsKeepInvolved(s, steps, x, r);
  }

  lemma ActionKeepsInvolved(s: Sys, a: Action, t: TxnId, r: ResId)
    requires Inv(s.locks) && HierarchyOk(s.locks) && Allowed(s, a) && t in s.locks.completed
    requires forall x :: x in s.active ==> x !in s.locks.completed
    ensures t in Perform(s, a).locks.completed
    ensures Involved(Perform(s, a).locks, t, r) <==> Involved(s.locks, t, r)
  {
    hide Inv, LockTable.Apply, Run, Serves, Plan, Involved;
    match a
    case Begin =>
    case Create(up, v) =>
      if up.Some? {
        StepAround(s.locks, SetParent(s.nextRes, up.value));
        CompletedStaysInvolvedIff(s.locks, SetParent(s.nextRes, up.value), t, r);
      }
    case Access(x, q, w, steps, ok) =>
      AccessKeepsInvolved(s.locks, x, q, ModeOf(w), steps, ok, t, r);
      RequestLockIsDisciplined(s.locks, x, q, ModeOf(w), steps, ok);
      assert Perform(s, a).locks == Run(s.locks, steps);
    case Finish(x, commit) =>
      StepAround(s.locks, Complete(x));
      CompletedStaysInvolvedIff(s.locks, Complete(x), t, r);
    case Checkpoint =>
    case Disown(_) =>
  }

  lemma {:induction false} LaterStaysInvolved(actions: seq<Action>, i: nat, t: TxnId, r: ResId)
    requires IsRun(actions) && i <= |actions| && t in After(actions[..i]).locks.completed
    ensures t in After(actions).locks.completed
    ensures Involved(After(actions).locks, t, r) <==> Involved(After(actions[..i]).locks, t, r)
    decreases |actions|
  {
    hide Perform, Allowed, Inv, HierarchyOk, Involved, Within;
    if i < |actions| {
      var n := |actions| - 1;
      assert actions[..n][..i] == actions[..i];
      LaterStaysInvolved(actions[..n], i, t, r);
      OkParts(actions[..n]);
      ActionKeepsInvolved(After(actions[..n]), actions[n], t, r);
    } else {
      assert actions[..i] == actions;
    }
  }

  lemma {:induction false} PrefixIsRun(actions: seq<Action>, i: nat)
    requires IsRun(actions) && i <= |actions|
    ensures IsRun(actions[..i])
    ensures i < |actions| ==> Allowed(After(actions[..i]), actions[i]) && IsRun(actions[..i + 1])
                              && After(actions[..i + 1]) == Perform(After(actions[..i]), actions[i])
    decreases |actions|
  {
    hide Allowed, Perform;
    if i == |actions| {
      assert actions[..i] == actions;
    } else {
      var n := |actions| - 1;
      assert i < n ==> actions[..n][..i] == actions[..i] && actions[..n][..i + 1] == actions[..i + 1];
      assert i == n ==> actions[..i + 1] == actions;
      if i < n {
        PrefixIsRun(actions[..n], i);
      }
    }
  }

  lemma FinishCompletes(actions: seq<Action>, i: nat, t: TxnId)
    requires IsRun(actions) && i < |actions| && actions[i].Finish? && actions[i].txn == t
    ensures var before, after := After(actions[..i]).locks, After(actions[..i + 1]).locks;
            && Inv(before) && t !in before.completed && t in after.completed
            && after == LockTable.Apply(before, Complete(t))
  {
    PrefixIsRun(actions, i);
    OkParts(actions[..i]);
    StepAround(After(actions[..i]).locks, Complete(t));
    hide After, IsRun, Inv, HierarchyOk, LockTable.Apply, Within;
  }

  /** In every later state a finished transaction holds and awaits nothing, if and only if it finished without
      a request in any queue. */
  lemma FinishedLeavesNothingIff(actions: seq<Action>, i: nat, t: TxnId)
    requires IsRun(actions) && i < |actions| && actions[i].Finish? && actions[i].txn == t
    ensures Uninvolved(After(actions).locks, t) <==> NoRequestLeft(After(actions[..i]).locks, t)
  {
    hide After, IsRun, Inv, LockTable.Apply, Involved, NoRequestLeft;
    var before, after, last := After(actions[..i]).locks, After(actions[..i + 1]).locks, After(actions).locks;
    FinishCompletes(actions, i, t);
    CompletionLeavesNothingIff(before, t);
    assert Uninvolved(after, t) <==> NoRequestLeft(before, t);
    forall r ensures Involved(last, t, r) <==> Involved(after, t, r) {
      LaterStaysInvolved(actions, i + 1, t, r);
    }
    assert Uninvolved(last, t) <==> Uninvolved(after, t);
  }

  // ---------------------------------------------------------------- a leftover exclusive lock

  ghost predicate Leftover(locks: Table, t: TxnId, r: ResId) {
    t in locks.completed && Lock(t, EXCLUSIVE) in LocksOn(locks, r)
  }

  lemma StepKeepsLeftover(s: Table, step: Step, t: TxnId, r: ResId)
    requires Inv(s) && Enabled(s, step) && Leftover(s, t, r)
    requires (step.Release? || step.Complete?) ==> step.txn != t
    ensures Leftover(LockTable.Apply(s, step), t, r)
  {
    hide LockTable.Apply, Inv, Enabled, RefilledLocks, RefilledQueue;
    StepAround(s, step);
    StepChanges(s, step, r);
    CompletedAsksInVain(s, step, t, r);
    ChangeRetains(LocksOn(s, r), QueueOn(s, r), Actor(step), ChangeOn(s, step, r), t);
  }

  lemma {:induction false} RequestsKeepLeftover(s: Table, steps: seq<Step>, t: TxnId, r: ResId)
    requires Inv(s) && Legal(s, steps) && Leftover(s, t, r)
    requires forall k :: 0 <= k < |steps| ==> steps[k].Request?
    ensures Leftover(Run(s, steps), t, r)
    decreases |steps|
  {
    hide Inv, Leftover, Enabled, LockTable.Apply;
    if steps != [] {
      var n := |steps| - 1;
      RunKeepsInv(s, steps[..n]);
      RequestsKeepLeftover(s, steps[..n], t, r);
      StepKeepsLeftover(Run(s, steps[..n]), steps[n], t, r);
    }
  }

  lemma AccessKeepsLeftover(s: Table, t: TxnId, q: ResId, m: LockType, steps: seq<Step>, ok: bool, x: TxnId, r: ResId)
    requires Inv(s) && Acyclic(s.parent) && m != NONE && Serves(s, t, Plan(s.parent, q, m), steps, ok)
    requires Leftover(s, x, r)
    ensures Leftover(Run(s, steps), x, r)
  {
    RequestLockIsDisciplined(s, t, q, m, steps, ok);
    ServedAreRequests(s, t, Plan(s.parent, q, m), steps, ok);
    hide Serves, Plan, Run, Legal, DisciplinedRun, Inv, Leftover;
    RequestsKeepLeftover(s, steps, x, r);
  }

  lemma LeftoverIsCompleted(locks: Table, t: TxnId, r: ResId)
    requires Leftover(locks, t, r)
    ensures t in locks.completed
  {
  }

  lemma ActionKeepsLeftover(s: Sys, a: Action, t: TxnId, r: ResId)
    requires Inv(s.locks) && HierarchyOk(s.locks) && Allowed(s, a) && Leftover(s.locks, t, r)
    requires forall x :: x in s.active ==> x !in s.locks.completed
    ensures Leftover(Perform(s, a).locks, t, r)
  {
    hide Inv, LockTable.Apply, Run, Serves, Plan, Leftover;
    LeftoverIsCompleted(s.locks, t, r);
    match a
    case Begin =>
    case Create(up, v) =>
      if up.Some? {
        StepKeepsLeftover(s.locks, SetParent(s.nextRes, up.value), t, r);
      }
    case Access(x, q, w, steps, ok) =>
      AccessKeepsLeftover(s.locks, x, q, ModeOf(w), steps, ok, t, r);
      assert Perform(s, a).locks == Run(s.locks, steps);
    case Finish(x, commit) =>
      StepKeepsLeftover(s.locks, Complete(x), t, r);
    case Checkpoint =>
    case Disown(_) =>
  }

  /** A stale exclusive grant to a finished transaction is never taken back. */
  lemma {:induction false} LeftoverStays(actions: seq<Action>, i: nat, t: TxnId, r: ResId)
    requires IsRun(actions) && i <= |actions| && Leftover(After(actions[..i]).locks, t, r)
    ensures Leftover(After(actions).locks, t, r)
    decreases |actions|
  {
    hide Perform, Allowed, Inv, HierarchyOk, Leftover, Within;
    if i < |actions| {
      var n := |actions| - 1;
      assert actions[..n][..i] == actions[..i];
      LeftoverStays(actions[..n], i, t, r);
      OkParts(actions[..n]);
      ActionKeepsLeftover(After(actions[..n]), actions[n], t, r);
    } else {
      assert actions[..i] == actions;
    }
  }

  lemma LeftoverBlocks(s: Sys, t: TxnId, r: ResId, a: Action)
    requires Inv(s.locks) && HierarchyOk(s.locks) && Leftover(s.locks, t, r) && Allowed(s, a) && a.Access?
    requires (forall x :: x in s.active ==> x !in s.locks.completed) && Above(s.locks.parent, r, a.res)
    ensures !a.ok
  {
    var m := ModeOf(a.write);
    assert Lock(t, EXCLUSIVE) in LocksOn(s.locks, r) && t != a.txn;
    assert ObstructedAt(s.locks, a.txn, a.res, m, r);
    assert BlockedCall(s.locks, a.txn, a.res, m);
    hide Inv, Serves, Plan, BlockedCall, Above;
    CallIsGrantedIff(s.locks, a.txn, a.res, m, a.lockSteps, a.ok);
  }

  /** So it shuts the whole subtree for good: every later access at the resource or below it, by anybody, is
      refused. */
  lemma LeftoverShutsSubtree(actions: seq<Action>, i: nat, k: nat, t: TxnId, r: ResId)
    requires IsRun(actions) && i <= k < |actions| && Leftover(After(actions[..i]).locks, t, r)
    requires actions[k].Access? && Above(After(actions[..k]).locks.parent, r, actions[k].res)
    ensures !actions[k].ok
  {
    hide After, IsRun, Inv, HierarchyOk, Leftover, Above, Allowed, Within;
    var before := actions[..k];
    PrefixIsRun(actions, k);
    OkParts(before);
    assert before[..i] == actions[..i];
    LeftoverStays(before, i, t, r);
    LeftoverBlocks(After(before), t, r, actions[k]);
  }

  // ---------------------------------------------------------------- how long a refusal lasts

  /** `b` continues `a` by resource creations and accesses only: no transaction begins or ends. */
  ghost predicate Extends(a: seq<Action>, b: seq<Action>) {
    && |a| <= |b| && b[..|a|] == a
    && forall k :: |a| <= k < |b| ==> b[k].Create? || b[k].Access?
  }

  lemma ExtendsItself(a: seq<Action>)
    ensures Extends(a, a)
  {
    assert a[..|a|] == a;
  }

  lemma ExtendsSnoc(a: seq<Action>, b: seq<Action>, x: Action)
    requires Extends(a, b) && (x.Create? || x.Access?)
    ensures Extends(a, b + [x])
  {
    assert (b + [x])[..|a|] == b[..|a|];
  }

  lemma ExtendsTransitive(a: seq<Action>, b: seq<Action>, c: seq<Action>)
    requires Extends(a, b) && Extends(b, c)
    ensures Extends(a, c)
  {
    assert c[..|a|] == c[..|b|][..|a|];
    forall k | |a| <= k < |c| ensures c[k].Create? || c[k].Access? {
      if k < |b| {
        assert c[k] == c[..|b|][k];
      }
    }
  }

  /** `b` continues `a` by resource creations only. */
  ghost predicate Creates(a: seq<Action>, b: seq<Action>) {
    && |a| <= |b| && b[..|a|] == a
    && forall k :: |a| <= k < |b| ==> b[k].Create?
  }

  lemma CreatesItself(a: seq<Action>)
    ensures Creates(a, a)
  {
    assert a[..|a|] == a;
  }

  lemma CreatesSnoc(a: seq<Action>, b: seq<Action>, x: Action)
    requires Creates(a, b) && x.Create?
    ensures Creates(a, b + [x])
  {
    assert (b + [x])[..|a|] == b[..|a|];
  }

  lemma CreatesTransitive(a: seq<Action>, b: seq<Action>, c: seq<Action>)
    requires Creates(a, b) && Creates(b, c)
    ensures Creates(a, c)
  {
    assert c[..|a|] == c[..|b|][..|a|];
    forall k | |a| <= k < |c| ensures c[k].Create? {
      if k < |b| {
        assert c[k] == c[..|b|][k];
      }
    }
  }

  lemma CreatesExtends(a: seq<Action>, b: seq<Action>)
    requires Creates(a, b)
    ensures Extends(a, b)
  {
  }

  /** Every refusal there was is still there. */
  ghost predicate KeepsBlocked(s: Table, s': Table) {
    forall t, r, m :: BlockedCall(s, t, r, m) ==> BlockedCall(s', t, r, m)
  }

  lemma KeepsBlockedTransitive(a: Table, b: Table, c: Table)
    requires KeepsBlocked(a, b) && KeepsBlocked(b, c)
    ensures KeepsBlocked(a, c)
  {
    hide BlockedCall;
  }

  lemma ChangeKeepsObstructing(ls: multiset<Lock>, q: seq<LockRequest>, x: TxnId, c: Change, t: TxnId, m: LockType)
    requires Guarded(ls, q, x, c) && !c.Refilled? && (c.Swapped? ==> Covers(c.mode, c.was))
    requires !FitsOthers(ls, t, m)
    ensures !FitsOthers(LocksAfter(ls, q, x, c), t, m)
  {
    var l :| l in ls && l.txn != t && !Compatible(l.mode, m);
    if c.Swapped? && l == Lock(x, c.was) {
      BlocksAsMuchIff(c.mode, c.was);
      assert Lock(x, c.mode) in LocksAfter(ls, q, x, c);
    } else {
      assert l in LocksAfter(ls, q, x, c);
    }
  }

  lemma StepKeepsObstructed(s: Table, step: Step, t: TxnId, r: ResId, m: LockType)
    requires Inv(s) && Enabled(s, step) && CoverOnly(s, step) && (step.Request? || step.SetParent?)
    requires Obstructed(s, t, r, m)
    ensures Obstructed(LockTable.Apply(s, step), t, r, m)
  {
    hide LockTable.Apply, Inv, Enabled, LocksAfter, FitsOthers, Guarded;
    StepChanges(s, step, r);
    NoRefillAndCovers(s, step, r);
    ChangeKeepsObstructing(LocksOn(s, r), QueueOn(s, r), Actor(step), ChangeOn(s, step, r), t, m);
  }

  lemma NoRefillAndCovers(s: Table, step: Step, r: ResId)
    requires Enabled(s, step) && CoverOnly(s, step) && (step.Request? || step.SetParent?)
    ensures var c := ChangeOn(s, step, r); !c.Refilled? && (c.Swapped? ==> Covers(c.mode, c.was))
  {
    if step.Request? {
      RequestIsGuarded(s, step);
    }
  }

  ghost predicate ParentsKept(p: Parents, p': Parents) {
    forall c :: c in p ==> c in p' && p'[c] == p[c]
  }

  lemma KeptObstructionsBlock(s: Table, s': Table)
    requires ParentsKept(s.parent, s'.parent)
    requires forall t, r, m :: Obstructed(s, t, r, m) ==> Obstructed(s', t, r, m)
    ensures KeepsBlocked(s, s')
  {
    hide Obstructed;
    forall t, r, m | BlockedCall(s, t, r, m) ensures BlockedCall(s', t, r, m) {
      var a :| Above(s.parent, a, r) && ObstructedAt(s, t, r, m, a);
      var c :| IsChain(s.parent, c) && c[0] == r && c[|c| - 1] == a;
      assert IsChain(s'.parent, c);
      assert Above(s'.parent, a, r) && ObstructedAt(s', t, r, m, a);
    }
  }

  lemma StepKeepsBlocked(s: Table, step: Step)
    requires Inv(s) && Enabled(s, step) && CoverOnly(s, step)
    requires step.Request? || (step.SetParent? && step.child !in s.parent)
    ensures KeepsBlocked(s, LockTable.Apply(s, step))
  {
    StepAround(s, step);
    assert step.SetParent? ==> LockTable.Apply(s, step).parent == s.parent[step.child := step.up];
    hide LockTable.Apply, Inv, Enabled, CoverOnly, Obstructed, KeepsBlocked;
    forall t, r, m | Obstructed(s, t, r, m) ensures Obstructed(LockTable.Apply(s, step), t, r, m) {
      StepKeepsObstructed(s, step, t, r, m);
    }
    KeptObstructionsBlock(s, LockTable.Apply(s, step));
  }

  lemma {:induction false} RequestsKeepBlocked(s: Table, steps: seq<Step>)
    requires Inv(s) && Legal(s, steps) && CoverOnlyRun(s, steps)
    requires forall k :: 0 <= k < |steps| ==> steps[k].Request?
    ensures KeepsBlocked(s, Run(s, steps))
    decreases |steps|
  {
    hide Inv, BlockedCall, Enabled, LockTable.Apply, CoverOnly;
    if steps != [] {
      var n := |steps| - 1;
      RunKeepsInv(s, steps[..n]);
      RequestsKeepBlocked(s, steps[..n]);
      StepKeepsBlocked(Run(s, steps[..n]), steps[n]);
    }
  }

  lemma AccessKeepsBlocked(s: Table, t: TxnId, q: ResId, m: LockType, steps: seq<Step>, ok: bool)
    requires Inv(s) && Acyclic(s.parent) && m != NONE && Serves(s, t, Plan(s.parent, q, m), steps, ok)
    requires CoverOnlyRun(s, steps)
    ensures KeepsBlocked(s, Run(s, steps))
  {
    RequestLockIsDisciplined(s, t, q, m, steps, ok);
    ServedAreRequests(s, t, Plan(s.parent, q, m), steps, ok);
    hide Serves, Plan, Run, Legal, DisciplinedRun, Inv, KeepsBlocked, CoverOnlyRun;
    RequestsKeepBlocked(s, steps);
  }

  lemma ActionKeepsBlocked(s: Sys, a: Action)
    requires Inv(s.locks) && HierarchyOk(s.locks) && Within(s.locks, s.store.Keys) && s.nextRes !in s.store
    requires Allowed(s, a) && CoveringAction(s, a) && (a.Create? || a.Access?)
    ensures KeepsBlocked(s.locks, Perform(s, a).locks)
  {
    hide Inv, LockTable.Apply, Run, Serves, Plan, BlockedCall, CoverOnlyRun;
    if a.Create? {
      if a.up.Some? {
        NewChildIsFresh(s.locks, s.nextRes, a.up.value, s.store.Keys);
        StepKeepsBlocked(s.locks, SetParent(s.nextRes, a.up.value));
      }
    } else {
      AccessKeepsBlocked(s.locks, a.txn, a.res, ModeOf(a.write), a.lockSteps, a.ok);
      assert Perform(s, a).locks == Run(s.locks, a.lockSteps);
    }
  }

  /** While nobody begins or ends and replacements cover, every call that would be refused stays refused. */
  lemma {:induction false} RefusalsLast(a: seq<Action>, b: seq<Action>, from: nat)
    requires IsRun(b) && Extends(a, b) && from <= |a| && Covering(b, from)
    ensures Covering(a, from) && KeepsBlocked(After(a).locks, After(b).locks)
    decreases |b|
  {
    hide Perform, Allowed, Inv, HierarchyOk, Within, CoveringAction, BlockedCall;
    if |a| == |b| {
      assert b[..|a|] == b;
    } else {
      var n := |b| - 1;
      assert b[..n][..|a|] == b[..|a|];
      RefusalsLast(a, b[..n], from);
      OkParts(b[..n]);
      ActionKeepsBlocked(After(b[..n]), b[n]);
      KeepsBlockedTransitive(After(a).locks, After(b[..n]).locks, After(b).locks);
    }
  }

  lemma {:induction false} CoveringLater(actions: seq<Action>, from: nat, later: nat)
    requires Covering(actions, from) && from <= later
    ensures Covering(actions, later)
    decreases |actions|
  {
    hide CoveringAction;
    if |actions| > later {
      CoveringLater(actions[..|actions| - 1], from, later);
    }
  }
}
