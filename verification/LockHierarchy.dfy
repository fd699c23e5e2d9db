/** Hierarchical locking: a request takes intention locks from the root down, and what that gives for
    every ancestor and every subtree. */
module LockHierarchy {
  import opened Ids
  import opened LockModes
  import opened LockTable
  import opened LockSafety
  import opened LockRuns

  type Parents = map<ResId, ResId>

  // ---------------------------------------------------------------- the parent map

  /** A walk upwards: every entry is the parent of the one before it. */
  ghost predicate IsChain(p: Parents, c: seq<ResId>) {
    |c| >= 1 && forall i :: 0 <= i < |c| - 1 ==> c[i] in p && p[c[i]] == c[i + 1]
  }

  ghost predicate Acyclic(p: Parents) {
    forall c :: IsChain(p, c) && |c| > 1 ==> c[0] != c[|c| - 1]
  }

  /** `a` is `d` itself or one of its ancestors. */
  ghost predicate Above(p: Parents, a: ResId, d: ResId) {
    exists c :: IsChain(p, c) && c[0] == d && c[|c| - 1] == a
  }

  ghost predicate Unrelated(p: Parents, r: ResId) {
    r !in p && r !in p.Values
  }

  lemma ChainStaysOld(p: Parents, child: ResId, up: ResId, c: seq<ResId>)
    requires Unrelated(p, child) && child != up
    requires IsChain(p[child := up], c) && (c[0] != child || |c| == 1)
    ensures IsChain(p, c)
  {
    forall i | 0 <= i < |c| - 1 ensures c[i] != child {
      if i > 0 {
        assert c[i - 1] in p[child := up] && p[child := up][c[i - 1]] == c[i];
        if c[i - 1] != child {
          assert p[c[i - 1]] in p.Values;
        }
      }
    }
  }

  /** Hanging a resource nobody refers to under another one creates no cycle. */
  lemma AttachKeepsAcyclic(p: Parents, child: ResId, up: ResId)
    requires Acyclic(p) && Unrelated(p, child) && child != up
    ensures Acyclic(p[child := up])
  {
    forall c | IsChain(p[child := up], c) && |c| > 1 ensures c[0] != c[|c| - 1] {
      var n := |c| - 1;
      if c[0] == child {
        assert c[n - 1] in p[child := up] && p[child := up][c[n - 1]] == c[n];
        assert c[n - 1] != child ==> p[c[n - 1]] in p.Values;
      } else {
        ChainStaysOld(p, child, up, c);
      }
    }
  }

  // ---------------------------------------------------------------- the walk to the root

  /** The ancestor loop: nearest ancestor first, stopping at a root or at a parent already seen. */
  ghost function Climb(p: Parents, r: ResId, seen: set<ResId>): seq<ResId>
    decreases p.Values - seen
  {
    if r in p && p[r] !in seen then [p[r]] + Climb(p, p[r], seen + {p[r]}) else []
  }

  lemma {:induction false} ClimbIsChain(p: Parents, r: ResId, seen: set<ResId>)
    ensures IsChain(p, [r] + Climb(p, r, seen))
    decreases p.Values - seen
  {
    if r in p && p[r] !in seen {
      ClimbIsChain(p, p[r], seen + {p[r]});
      var rest := [p[r]] + Climb(p, p[r], seen + {p[r]});
      forall i | 0 <= i < |[r] + rest| - 1
        ensures ([r] + rest)[i] in p && p[([r] + rest)[i]] == ([r] + rest)[i + 1] {
        if i > 0 {
          assert ([r] + rest)[i] == rest[i - 1];
        }
      }
    }
  }

  /** Without cycles the walk ends only at a root.  `trail` is the walk so far. */
  lemma {:induction false} ClimbEndsAtRoot(p: Parents, trail: seq<ResId>, seen: set<ResId>)
    requires Acyclic(p) && IsChain(p, trail) && (forall x :: x in seen ==> x in trail)
    ensures var r := trail[|trail| - 1];
            var c := [r] + Climb(p, r, seen);
            c[|c| - 1] !in p
    decreases p.Values - seen
  {
    var r := trail[|trail| - 1];
    if r in p {
      var longer := trail + [p[r]];
      assert IsChain(p, longer);
      if p[r] in seen {
        var j :| 0 <= j < |trail| && trail[j] == p[r];
        var loop := longer[j..];
        assert forall i :: 0 <= i < |loop| - 1 ==> loop[i] == longer[j + i];
        assert loop[0] == loop[|loop| - 1];
        assert IsChain(p, loop);
        assert false;
      } else {
        ClimbEndsAtRoot(p, longer, seen + {p[r]});
      }
    }
  }

  // ---------------------------------------------------------------- requestLock as a plan of requests

  /** Ancestors from the root down in the intention mode, then the resource itself. */
  ghost function Plan(p: Parents, r: ResId, m: LockType): seq<(ResId, LockType)> {
    if AncestorIntention(m) == NONE then [(r, m)]
    else
      var up := Climb(p, r, {});
      seq(|up|, k requires 0 <= k < |up| => (up[|up| - 1 - k], AncestorIntention(m))) + [(r, m)]
  }

  ghost predicate Asks(step: Step, t: TxnId, want: (ResId, LockType)) {
    step.Request? && step.txn == t && step.res == want.0 && step.mode == want.1
  }

  /** `steps` are granted requests for the first entries of the plan. */
  ghost predicate Climbed(s: Table, t: TxnId, plan: seq<(ResId, LockType)>, steps: seq<Step>) {
    && |steps| <= |plan|
    && (steps == [] ||
        (var n := |steps| - 1;
         && Climbed(s, t, plan, steps[..n])
         && Asks(steps[n], t, plan[n])
         && Enabled(Run(s, steps[..n]), steps[n])
         && Granted(Run(s, steps[..n]), steps[n])))
  }

  /** The steps of one requestLock call: the plan up to its first refusal, or all of it. */
  ghost predicate Serves(s: Table, t: TxnId, plan: seq<(ResId, LockType)>, steps: seq<Step>, ok: bool) {
    if t in s.completed then steps == [] && !ok
    else if ok then |steps| == |plan| && Climbed(s, t, plan, steps)
    else
      && 0 < |steps| <= |plan|
      && var n := |steps| - 1;
         && Climbed(s, t, plan, steps[..n])
         && Asks(steps[n], t, plan[n])
         && Enabled(Run(s, steps[..n]), steps[n])
         && !Granted(Run(s, steps[..n]), steps[n])
  }

  // ---------------------------------------------------------------- discipline

  ghost predicate HoldsCovering(s: Table, t: TxnId, r: ResId, m: LockType) {
    exists l :: l in LocksOn(s, r) && l.txn == t && Covers(l.mode, m)
  }

  ghost predicate FreshChild(s: Table, child: ResId, up: ResId) {
    child !in s.locks && child !in s.queues && Unrelated(s.parent, child) && child != up
  }

  /** Parents are given to fresh resources only, and nothing is requested before the parent is held in a
      mode that announces it. */
  ghost predicate Disciplined(s: Table, step: Step) {
    match step
    case SetParent(c, p) => FreshChild(s, c, p)
    case Request(t, r, m, _) =>
      t !in s.completed && r in s.parent ==> HoldsCovering(s, t, s.parent[r], AncestorIntention(m))
    case _ => true
  }

  ghost predicate DisciplinedRun(s: Table, steps: seq<Step>) {
    steps == [] ||
    (var n := |steps| - 1; DisciplinedRun(s, steps[..n]) && Disciplined(Run(s, steps[..n]), steps[n]))
  }

  lemma GrantedHolds(s: Table, step: Step)
    requires step.Request? && Enabled(s, step) && Granted(s, step)
    ensures HoldsCovering(Apply(s, step), step.txn, step.res, step.mode)
  {
    RequestChanges(s, step, step.res);
    var ls := LocksOn(Apply(s, step), step.res);
    var c := RequestChange(s, step);
    if c.Same? {
      assert Lock(step.txn, step.found.value) in ls;
    } else {
      assert Lock(step.txn, step.mode) in ls;
    }
  }

  lemma PlanClimbs(p: Parents, r: ResId, m: LockType, k: nat)
    requires Acyclic(p) && m != NONE && k < |Plan(p, r, m)|
    ensures var plan := Plan(p, r, m);
            if k == 0 then plan[k].0 !in p
            else && plan[k].0 in p && p[plan[k].0] == plan[k - 1].0
                 && plan[k - 1].1 == AncestorIntention(plan[k].1)
  {
    hide Climb, Acyclic;
    var up := Climb(p, r, {});
    var c := [r] + up;
    ClimbIsChain(p, r, {});
    assert IsChain(p, [r]);
    ClimbEndsAtRoot(p, [r], {});
    var n := |up|;
    assert Plan(p, r, m)[k].0 == c[n - k];
    if k > 0 {
      assert Plan(p, r, m)[k - 1].0 == c[n - k + 1];
      assert c[n - k] in p && p[c[n - k]] == c[n - k + 1];
    }
  }

  lemma {:induction false} ClimbedIsDisciplined(s: Table, t: TxnId, r: ResId, m: LockType, steps: seq<Step>)
    requires Acyclic(s.parent) && m != NONE && Climbed(s, t, Plan(s.parent, r, m), steps)
    ensures Legal(s, steps) && DisciplinedRun(s, steps)
    ensures Run(s, steps).parent == s.parent && Run(s, steps).completed == s.completed
    ensures steps != [] ==> var want := Plan(s.parent, r, m)[|steps| - 1];
                            HoldsCovering(Run(s, steps), t, want.0, want.1)
    decreases |steps|
  {
    hide Apply, Granted, Inv, Plan, Acyclic, AncestorIntention;
    if steps != [] {
      var n := |steps| - 1;
      ClimbedIsDisciplined(s, t, r, m, steps[..n]);
      PlanClimbs(s.parent, r, m, n);
      GrantedHolds(Run(s, steps[..n]), steps[n]);
      StepAround(Run(s, steps[..n]), steps[n]);
    }
  }

  /** Every requestLock call in a real mode, on an acyclic hierarchy, is disciplined. */
  lemma RequestLockIsDisciplined(s: Table, t: TxnId, r: ResId, m: LockType, steps: seq<Step>, ok: bool)
    requires Acyclic(s.parent) && m != NONE && Serves(s, t, Plan(s.parent, r, m), steps, ok)
    ensures Legal(s, steps) && DisciplinedRun(s, steps)
    ensures Run(s, steps).parent == s.parent && Run(s, steps).completed == s.completed
    ensures ok ==> HoldsCovering(Run(s, steps), t, r, m)
  {
    if t !in s.completed {
      var n := |steps| - 1;
      var before := if ok then steps else steps[..n];
      ClimbedIsDisciplined(s, t, r, m, before);
      if !ok {
        PlanClimbs(s.parent, r, m, n);
        StepAround(Run(s, steps[..n]), steps[n]);
      }
    }
  }

  // ---------------------------------------------------------------- upward closure

  /** An uncompleted transaction that holds or awaits `r` holds the parent of `r`. */
  ghost predicate UpwardAt(s: Table, t: TxnId, r: ResId) {
    t !in s.completed && r in s.parent && Involved(s, t, r) ==> Holds(s, t, s.parent[r])
  }

  ghost predicate HierarchyOk(s: Table) {
    && Acyclic(s.parent)
    && (forall t, r :: UpwardAt(s, t, r))
  }

  lemma OnlyRequestsInvolve(s: Table, step: Step, t: TxnId, r: ResId)
    requires Inv(s) && Enabled(s, step) && Involved(Apply(s, step), t, r) && t !in s.completed
    ensures Involved(s, t, r) || (step.Request? && step.txn == t && step.res == r)
  {
    StepChanges(s, step, r);
    if !Involved(s, t, r) && !(step.Request? && step.txn == t && step.res == r) {
      ChangesKeepAbsent(s, Apply(s, step), r, Actor(step), ChangeOn(s, step, r), t);
    }
  }

  lemma StepKeepsUpward(s: Table, step: Step, t: TxnId, r: ResId)
    requires Inv(s) && Enabled(s, step) && Disciplined(s, step) && UpwardAt(s, t, r)
    ensures UpwardAt(Apply(s, step), t, r)
  {
    var s' := Apply(s, step);
    StepAround(s, step);
    if t !in s'.completed && r in s'.parent && Involved(s', t, r) {
      OnlyRequestsInvolve(s, step, t, r);
      if !step.SetParent? || step.child != r {
        StepRetains(s, step, t, s.parent[r]);
      }
    }
  }

  lemma StepKeepsHierarchy(s: Table, step: Step)
    requires Inv(s) && Enabled(s, step) && Disciplined(s, step) && HierarchyOk(s)
    ensures HierarchyOk(Apply(s, step))
  {
    StepAround(s, step);
    if step.SetParent? {
      AttachKeepsAcyclic(s.parent, step.child, step.up);
    }
    forall t, r ensures UpwardAt(Apply(s, step), t, r) {
      StepKeepsUpward(s, step, t, r);
    }
  }

  lemma {:induction false} RunKeepsHierarchy(s: Table, steps: seq<Step>)
    requires Inv(s) && HierarchyOk(s) && Legal(s, steps) && DisciplinedRun(s, steps)
    ensures HierarchyOk(Run(s, steps))
    decreases |steps|
  {
    if steps != [] {
      var n := |steps| - 1;
      RunKeepsInv(s, steps[..n]);
      RunKeepsHierarchy(s, steps[..n]);
      StepKeepsHierarchy(Run(s, steps[..n]), steps[n]);
    }
  }

  lemma {:induction false} UpwardClosure(s: Table, t: TxnId, c: seq<ResId>)
    requires HierarchyOk(s) && IsChain(s.parent, c) && |c| > 1
    requires t !in s.completed && Involved(s, t, c[0])
    ensures Holds(s, t, c[|c| - 1])
    decreases |c|
  {
    assert UpwardAt(s, t, c[0]);
    if |c| > 2 {
      assert IsChain(s.parent, c[1..]);
      UpwardClosure(s, t, c[1..]);
    }
  }

  /** An exclusive lock shuts every other uncompleted transaction out of the whole subtree: it neither
      holds nor awaits anything strictly below, and holds nothing at the node itself. */
  lemma ExclusiveOwnsSubtree(s: Table, t: TxnId, a: ResId, d: ResId, x: TxnId)
    requires Inv(s) && HierarchyOk(s) && Above(s.parent, a, d)
    requires Lock(t, EXCLUSIVE) in LocksOn(s, a) && x != t && x !in s.completed
    ensures !Holds(s, x, d)
    ensures d != a ==> !Involved(s, x, d)
  {
    assert ResourceSafe(LocksOn(s, a), QueueOn(s, a));
    var c :| IsChain(s.parent, c) && c[0] == d && c[|c| - 1] == a;
    if |c| > 1 && Involved(s, x, d) {
      UpwardClosure(s, x, c);
    }
  }

  // ---------------------------------------------------------------- when a requestLock call is granted

  /** What the call would ask of `a`, an ancestor of `r` or `r` itself, is in another transaction's way. */
  ghost predicate ObstructedAt(s: Table, t: TxnId, r: ResId, m: LockType, a: ResId) {
    if a == r then Obstructed(s, t, r, m)
    else AncestorIntention(m) != NONE && Obstructed(s, t, a, AncestorIntention(m))
  }

  /** Another transaction's lock stands in the way of the call, on the resource or on an ancestor. */
  ghost predicate BlockedCall(s: Table, t: TxnId, r: ResId, m: LockType) {
    exists a :: Above(s.parent, a, r) && ObstructedAt(s, t, r, m, a)
  }

  /** A transaction's own requests never touch what obstructs it. */
  lemma RequestKeepsObstruction(s: Table, step: Step, r: ResId, m: LockType)
    requires step.Request? && Enabled(s, step)
    ensures Obstructed(Apply(s, step), step.txn, r, m) <==> Obstructed(s, step.txn, r, m)
  {
    hide Apply, Enabled, RequestChange;
    RequestChanges(s, step, r);
    RequestIsNoRefill(s, step);
    var ls, ls' := LocksOn(s, r), LocksOn(Apply(s, step), r);
    assert forall l: Lock :: l.txn != step.txn ==> (l in ls' <==> l in ls);
  }

  lemma RequestIsNoRefill(s: Table, step: Step)
    requires step.Request? && Enabled(s, step)
    ensures !RequestChange(s, step).Refilled?
  {
    RequestIsGuarded(s, step);
  }

  lemma {:induction false} ClimbedKeepsObstruction(s: Table, t: TxnId, plan: seq<(ResId, LockType)>, steps: seq<Step>,
                                                   r: ResId, m: LockType)
    requires Inv(s) && t !in s.completed && Climbed(s, t, plan, steps)
    ensures Inv(Run(s, steps)) && Run(s, steps).completed == s.completed && Run(s, steps).parent == s.parent
    ensures Obstructed(Run(s, steps), t, r, m) <==> Obstructed(s, t, r, m)
    decreases |steps|
  {
    hide Obstructed, Inv, Apply, Enabled, Granted;
    if steps != [] {
      var n := |steps| - 1;
      ClimbedKeepsObstruction(s, t, plan, steps[..n], r, m);
      RequestKeepsObstruction(Run(s, steps[..n]), steps[n], r, m);
      StepKeepsInv(Run(s, steps[..n]), steps[n]);
      StepAround(Run(s, steps[..n]), steps[n]);
    }
  }

  /** Every granted entry of a plan was unobstructed from the start. */
  lemma {:induction false} ClimbedIsFree(s: Table, t: TxnId, plan: seq<(ResId, LockType)>, steps: seq<Step>, k: nat)
    requires Inv(s) && t !in s.completed && Climbed(s, t, plan, steps) && k < |steps|
    ensures !Obstructed(s, t, plan[k].0, plan[k].1)
    decreases |steps|
  {
    hide Obstructed, Inv, Apply, Enabled, Granted;
    var n := |steps| - 1;
    if k < n {
      ClimbedIsFree(s, t, plan, steps[..n], k);
    } else {
      ClimbedKeepsObstruction(s, t, plan, steps[..n], plan[n].0, plan[n].1);
      RequestGrantedIff(Run(s, steps[..n]), steps[n]);
    }
  }

  /** The refused entry of a plan was obstructed from the start. */
  lemma RefusedIsObstructed(s: Table, t: TxnId, plan: seq<(ResId, LockType)>, steps: seq<Step>)
    requires Inv(s) && t !in s.completed && Serves(s, t, plan, steps, false)
    ensures var n := |steps| - 1; Obstructed(s, t, plan[n].0, plan[n].1)
  {
    hide Obstructed, Inv, Apply, Enabled, Granted;
    var n := |steps| - 1;
    ClimbedKeepsObstruction(s, t, plan, steps[..n], plan[n].0, plan[n].1);
    RequestGrantedIff(Run(s, steps[..n]), steps[n]);
  }

  /** On an acyclic hierarchy every walk upwards is a prefix of the walk to the root. */
  lemma {:induction false} ChainIsClimb(p: Parents, r: ResId, c: seq<ResId>)
    requires Acyclic(p) && IsChain(p, c) && c[0] == r
    ensures c <= [r] + Climb(p, r, {})
    decreases |c|
  {
    hide Climb, Acyclic;
    var n := |c| - 1;
    var up := [r] + Climb(p, r, {});
    if n > 0 {
      assert IsChain(p, c[..n]);
      ChainIsClimb(p, r, c[..n]);
      ClimbIsChain(p, r, {});
      assert IsChain(p, [r]);
      ClimbEndsAtRoot(p, [r], {});
      assert c[n - 1] == c[..n][n - 1] == up[n - 1];
      assert c[n - 1] in p && p[c[n - 1]] == c[n];
      assert n < |up| && up[n] == c[n];
      assert c == c[..n] + [c[n]];
    }
  }

  /** Where the plan asks, and for what: exactly the resource and its ancestors. */
  lemma PlanAsksAbove(p: Parents, r: ResId, m: LockType, k: nat)
    requires k < |Plan(p, r, m)|
    ensures var (a, asked) := Plan(p, r, m)[k];
            && Above(p, a, r)
            && (if k == |Plan(p, r, m)| - 1 then a == r && asked == m
                else AncestorIntention(m) != NONE && asked == AncestorIntention(m))
  {
    hide Climb;
    var up := [r] + Climb(p, r, {});
    ClimbIsChain(p, r, {});
    if AncestorIntention(m) == NONE {
      assert IsChain(p, [r]);
    } else {
      var c := up[..|up| - k];
      assert IsChain(p, c) && c[|c| - 1] == Plan(p, r, m)[k].0;
    }
  }

  lemma PlanHasEnd(p: Parents, r: ResId, m: LockType)
    ensures Plan(p, r, m) != []
  {
  }

  lemma AboveIsAsked(p: Parents, r: ResId, m: LockType, a: ResId) returns (k: nat)
    requires Acyclic(p) && Above(p, a, r) && AncestorIntention(m) != NONE
    ensures k < |Plan(p, r, m)|
    ensures Plan(p, r, m)[k] == (a, if a == r then m else AncestorIntention(m))
  {
    var c :| IsChain(p, c) && c[0] == r && c[|c| - 1] == a;
    ChainIsClimb(p, r, c);
    if a == r && |c| > 1 {
      assert false;
    }
    hide Climb, Acyclic;
    var up := [r] + Climb(p, r, {});
    k := |up| - |c|;
    assert up[|c| - 1] == a;
  }

  /** requestLock answers yes exactly when the transaction is not completed and no other transaction's lock is in
      the way, on the resource in the mode asked for or on an ancestor in the intention mode. */
  lemma CallIsGrantedIff(s: Table, t: TxnId, r: ResId, m: LockType, steps: seq<Step>, ok: bool)
    requires Inv(s) && Acyclic(s.parent) && Serves(s, t, Plan(s.parent, r, m), steps, ok)
    ensures ok <==> t !in s.completed && !BlockedCall(s, t, r, m)
  {
    hide Inv, Obstructed, Plan, Acyclic;
    if t !in s.completed {
      var plan := Plan(s.parent, r, m);
      if ok {
        forall a | Above(s.parent, a, r) ensures !ObstructedAt(s, t, r, m, a) {
          GrantedIsFree(s, t, r, m, steps, a);
        }
      } else {
        RefusedIsObstructed(s, t, plan, steps);
        var n := |steps| - 1;
        PlanAsksAbove(s.parent, r, m, n);
        RefusedIsBlocked(s, t, r, m, n);
      }
    }
  }

  lemma GrantedIsFree(s: Table, t: TxnId, r: ResId, m: LockType, steps: seq<Step>, a: ResId)
    requires Inv(s) && Acyclic(s.parent) && t !in s.completed && Above(s.parent, a, r)
    requires Serves(s, t, Plan(s.parent, r, m), steps, true)
    ensures !ObstructedAt(s, t, r, m, a)
  {
    hide Inv, Obstructed, Plan, Acyclic;
    var plan := Plan(s.parent, r, m);
    if AncestorIntention(m) != NONE {
      var k := AboveIsAsked(s.parent, r, m, a);
      ClimbedIsFree(s, t, plan, steps, k);
    } else if a == r {
      PlanHasEnd(s.parent, r, m);
      PlanAsksAbove(s.parent, r, m, |plan| - 1);
      ClimbedIsFree(s, t, plan, steps, |plan| - 1);
    }
  }

  lemma RefusedIsBlocked(s: Table, t: TxnId, r: ResId, m: LockType, n: nat)
    requires n < |Plan(s.parent, r, m)| && Acyclic(s.parent)
    requires var (a, asked) := Plan(s.parent, r, m)[n]; Obstructed(s, t, a, asked)
    ensures BlockedCall(s, t, r, m)
  {
    hide Obstructed, Plan;
    PlanAsksAbove(s.parent, r, m, n);
    var (a, asked) := Plan(s.parent, r, m)[n];
    if a == r && n < |Plan(s.parent, r, m)| - 1 {
      LastIsAlone(s.parent, r, m, n);
    }
    assert ObstructedAt(s, t, r, m, a);
  }

  /** Only the last entry of a plan is the resource itself. */
  lemma LastIsAlone(p: Parents, r: ResId, m: LockType, n: nat)
    requires Acyclic(p) && n < |Plan(p, r, m)| - 1
    ensures Plan(p, r, m)[n].0 != r
  {
    hide Climb;
    var up := [r] + Climb(p, r, {});
    ClimbIsChain(p, r, {});
    var c := up[..|up| - n];
    assert IsChain(p, c) && |c| > 1 && c[0] == r && c[|c| - 1] == Plan(p, r, m)[n].0;
  }

  /** A call changes nothing about what blocks its transaction, so a refused call would be refused again. */
  lemma OwnCallsKeepBlocked(s: Table, t: TxnId, q: ResId, asked: LockType, steps: seq<Step>, ok: bool,
                            r: ResId, m: LockType)
    requires Inv(s) && t !in s.completed && Serves(s, t, Plan(s.parent, q, asked), steps, ok)
    ensures BlockedCall(Run(s, steps), t, r, m) <==> BlockedCall(s, t, r, m)
  {
    hide Inv, Obstructed, Plan, Above;
    var plan, s' := Plan(s.parent, q, asked), Run(s, steps);
    forall a, w ensures Obstructed(s', t, a, w) <==> Obstructed(s, t, a, w)
                ensures s'.parent == s.parent {
      ServedKeepsObstruction(s, t, plan, steps, ok, a, w);
    }
    assert forall a :: ObstructedAt(s', t, r, m, a) <==> ObstructedAt(s, t, r, m, a);
  }

  lemma ServedKeepsObstruction(s: Table, t: TxnId, plan: seq<(ResId, LockType)>, steps: seq<Step>, ok: bool,
                               r: ResId, m: LockType)
    requires Inv(s) && t !in s.completed && Serves(s, t, plan, steps, ok)
    ensures Run(s, steps).parent == s.parent
    ensures Obstructed(Run(s, steps), t, r, m) <==> Obstructed(s, t, r, m)
  {
    hide Inv, Obstructed, Enabled, Granted, Apply;
    if ok {
      ClimbedKeepsObstruction(s, t, plan, steps, r, m);
    } else {
      var n := |steps| - 1;
      ClimbedKeepsObstruction(s, t, plan, steps[..n], r, m);
      RequestKeepsObstruction(Run(s, steps[..n]), steps[n], r, m);
      StepAround(Run(s, steps[..n]), steps[n]);
    }
  }

  /** Nothing blocks a call for a resource without locks and without a parent. */
  lemma UnlockedIsFree(s: Table, t: TxnId, r: ResId, m: LockType)
    requires r !in s.parent && LocksOn(s, r) == multiset{}
    ensures !BlockedCall(s, t, r, m)
  {
    forall a | Above(s.parent, a, r) ensures a == r {
      var c :| IsChain(s.parent, c) && c[0] == r && c[|c| - 1] == a;
    }
  }
}
