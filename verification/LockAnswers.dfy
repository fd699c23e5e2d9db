/** What a requestLock call answers and what locks it leaves, mode by mode. */
module LockAnswers {
  import opened Ids
  import opened LockModes
  import opened LockTable
  import opened LockSafety
  import opened LockRuns
  import opened LockHierarchy

  // ---------------------------------------------------------------- the answer

  /** Another transaction holds a lock on `a` in one of the modes. */
  ghost predicate OthersHold(s: Table, t: TxnId, a: ResId, modes: set<LockType>) {
    exists l :: l in LocksOn(s, a) && l.txn != t && l.mode in modes
  }

  /** On some ancestor of `r`, `r` itself left out. */
  ghost predicate OthersHoldAbove(s: Table, t: TxnId, r: ResId, modes: set<LockType>) {
    exists a :: Above(s.parent, a, r) && a != r && OthersHold(s, t, a, modes)
  }

  lemma ObstructedByMode(s: Table, t: TxnId, r: ResId)
    ensures Obstructed(s, t, r, SHARED) <==> OthersHold(s, t, r, {EXCLUSIVE, INTENTION_EXCLUSIVE})
    ensures Obstructed(s, t, r, INTENTION_SHARED) <==> OthersHold(s, t, r, {EXCLUSIVE})
    ensures Obstructed(s, t, r, INTENTION_EXCLUSIVE) <==> OthersHold(s, t, r, {EXCLUSIVE, SHARED})
    ensures Obstructed(s, t, r, NONE) <==> OthersHold(s, t, r, {EXCLUSIVE})
    ensures Obstructed(s, t, r, EXCLUSIVE) <==> exists l :: l in LocksOn(s, r) && l.txn != t
  {
    var ls := LocksOn(s, r);
    hide LocksOn;
    forall m | Obstructed(s, t, r, m) ensures exists l :: l in ls && l.txn != t && !Compatible(l.mode, m) {
    }
  }

  /** Something on an ancestor is in the way of the call. */
  ghost predicate ObstructedAbove(s: Table, t: TxnId, r: ResId, m: LockType) {
    exists a :: Above(s.parent, a, r) && a != r && ObstructedAt(s, t, r, m, a)
  }

  lemma AboveByMode(s: Table, t: TxnId, r: ResId, m: LockType)
    ensures m == SHARED || m == INTENTION_SHARED ==>
              (ObstructedAbove(s, t, r, m) <==> OthersHoldAbove(s, t, r, {EXCLUSIVE}))
    ensures m == EXCLUSIVE || m == INTENTION_EXCLUSIVE ==>
              (ObstructedAbove(s, t, r, m) <==> OthersHoldAbove(s, t, r, {EXCLUSIVE, SHARED}))
    ensures m == NONE ==> !ObstructedAbove(s, t, r, m)
  {
    hide Above, Obstructed, OthersHold;
    forall a ensures Obstructed(s, t, a, INTENTION_SHARED) <==> OthersHold(s, t, a, {EXCLUSIVE})
             ensures Obstructed(s, t, a, INTENTION_EXCLUSIVE) <==> OthersHold(s, t, a, {EXCLUSIVE, SHARED}) {
      ObstructedByMode(s, t, a);
    }
  }

  lemma BlockedHereOrAbove(s: Table, t: TxnId, r: ResId, m: LockType)
    ensures BlockedCall(s, t, r, m) <==> Obstructed(s, t, r, m) || ObstructedAbove(s, t, r, m)
  {
    hide Above, Obstructed;
    AboveItself(s.parent, r);
    assert ObstructedAt(s, t, r, m, r) <==> Obstructed(s, t, r, m);
  }

  lemma AboveItself(p: Parents, r: ResId)
    ensures Above(p, r, r)
  {
    assert IsChain(p, [r]);
  }

  /** The answer of every call on an acyclic hierarchy, from the locks of the others alone. */
  lemma AnswerByMode(s: Table, t: TxnId, r: ResId, m: LockType, steps: seq<Step>, ok: bool)
    requires Inv(s) && Acyclic(s.parent) && Serves(s, t, Plan(s.parent, r, m), steps, ok)
    ensures m == SHARED ==>
              (ok <==> t !in s.completed && !OthersHold(s, t, r, {EXCLUSIVE, INTENTION_EXCLUSIVE})
                                         && !OthersHoldAbove(s, t, r, {EXCLUSIVE}))
    ensures m == INTENTION_SHARED ==>
              (ok <==> t !in s.completed && !OthersHold(s, t, r, {EXCLUSIVE})
                                         && !OthersHoldAbove(s, t, r, {EXCLUSIVE}))
    ensures m == INTENTION_EXCLUSIVE ==>
              (ok <==> t !in s.completed && !OthersHold(s, t, r, {EXCLUSIVE, SHARED})
                                         && !OthersHoldAbove(s, t, r, {EXCLUSIVE, SHARED}))
    ensures m == EXCLUSIVE ==>
              (ok <==> t !in s.completed && (forall l :: l in LocksOn(s, r) ==> l.txn == t)
                                         && !OthersHoldAbove(s, t, r, {EXCLUSIVE, SHARED}))
    ensures m == NONE ==> (ok <==> t !in s.completed && !OthersHold(s, t, r, {EXCLUSIVE}))
  {
    CallIsGrantedIff(s, t, r, m, steps, ok);
    hide Inv, Acyclic, Serves, Plan, Obstructed, BlockedCall, ObstructedAbove, OthersHold, OthersHoldAbove;
    BlockedHereOrAbove(s, t, r, m);
    AboveByMode(s, t, r, m);
    ObstructedByMode(s, t, r);
  }

  /** Where a call is refused: on an ancestor exactly when another transaction holds X there, or X or S for an
      exclusive mode. */
  lemma RefusedAboveIff(s: Table, t: TxnId, r: ResId, m: LockType, steps: seq<Step>, ok: bool)
    requires Inv(s) && Acyclic(s.parent) && Serves(s, t, Plan(s.parent, r, m), steps, ok) && t !in s.completed
    ensures m == SHARED || m == INTENTION_SHARED ==>
              (!ok && steps[|steps| - 1].res != r <==> OthersHoldAbove(s, t, r, {EXCLUSIVE}))
    ensures m == EXCLUSIVE || m == INTENTION_EXCLUSIVE ==>
              (!ok && steps[|steps| - 1].res != r <==> OthersHoldAbove(s, t, r, {EXCLUSIVE, SHARED}))
  {
    hide Inv, Acyclic, Plan, Climbed, BlockedCall, ObstructedAbove, OthersHoldAbove, OthersHold;
    AboveByMode(s, t, r, m);
    if ok {
      CallIsGrantedIff(s, t, r, m, steps, ok);
      BlockedHereOrAbove(s, t, r, m);
    } else {
      RefusedAt(s, t, r, m, steps);
    }
  }

  lemma RefusedAt(s: Table, t: TxnId, r: ResId, m: LockType, steps: seq<Step>)
    requires Inv(s) && Acyclic(s.parent) && Serves(s, t, Plan(s.parent, r, m), steps, false) && t !in s.completed
    ensures steps[|steps| - 1].res != r <==> ObstructedAbove(s, t, r, m)
  {
    hide Inv, Acyclic, Plan, Obstructed, Above, Climbed, Granted;
    var plan, n := Plan(s.parent, r, m), |steps| - 1;
    var at := steps[n].res;
    RefusedIsObstructed(s, t, plan, steps);
    PlanAsksAbove(s.parent, r, m, n);
    if at != r {
      assert ObstructedAt(s, t, r, m, at);
    } else {
      if n < |plan| - 1 {
        LastIsAlone(s.parent, r, m, n);
      }
      forall a | Above(s.parent, a, r) && a != r ensures !ObstructedAt(s, t, r, m, a) {
        if AncestorIntention(m) != NONE {
          var k := AboveIsAsked(s.parent, r, m, a);
          ClimbedIsFree(s, t, plan, steps[..n], k);
        }
      }
    }
  }

  /** The ancestors' part of a call by itself: the steps before the resource is asked for. */
  lemma AncestorsAnswer(s: Table, t: TxnId, r: ResId, m: LockType, steps: seq<Step>, ok: bool)
    requires Inv(s) && Acyclic(s.parent) && t !in s.completed
    requires var plan := Plan(s.parent, r, m);
             if ok then Climbed(s, t, plan, steps) && |steps| == |plan| - 1
             else Serves(s, t, plan, steps, false) && |steps| < |plan|
    ensures m == SHARED || m == INTENTION_SHARED ==> (ok <==> !OthersHoldAbove(s, t, r, {EXCLUSIVE}))
    ensures m == EXCLUSIVE || m == INTENTION_EXCLUSIVE ==> (ok <==> !OthersHoldAbove(s, t, r, {EXCLUSIVE, SHARED}))
    ensures m == NONE ==> ok
  {
    hide Inv, Acyclic, Plan, Obstructed, Above, Climbed, Granted, OthersHoldAbove;
    var plan := Plan(s.parent, r, m);
    AboveByMode(s, t, r, m);
    if ok {
      forall a | Above(s.parent, a, r) && a != r ensures !ObstructedAt(s, t, r, m, a) {
        if AncestorIntention(m) != NONE {
          var k := AboveIsAsked(s.parent, r, m, a);
          AskedBeforeEnd(s.parent, r, m, k);
          ClimbedIsFree(s, t, plan, steps, k);
        }
      }
    } else {
      LastIsAlone(s.parent, r, m, |steps| - 1);
      RefusedAt(s, t, r, m, steps);
    }
  }

  lemma AskedBeforeEnd(p: Parents, r: ResId, m: LockType, k: nat)
    requires k < |Plan(p, r, m)| && Plan(p, r, m)[k].0 != r
    ensures k < |Plan(p, r, m)| - 1
  {
    PlanAsksAbove(p, r, m, k);
  }

  // ---------------------------------------------------------------- the locks it leaves

  /** A granted request of `t` in `asked`: a new lock where `t` had none; where it had some, one of them stays as it
      is, if it is X or already `asked`, or becomes `asked`. */
  ghost predicate Leaves(was: multiset<Lock>, now: multiset<Lock>, t: TxnId, asked: LockType) {
    if !Owns(was, t) then now == was + multiset{Lock(t, asked)}
    else exists h :: Lock(t, h) in was &&
                     now == if h == asked || h == EXCLUSIVE then was
                            else was - multiset{Lock(t, h)} + multiset{Lock(t, asked)}
  }

  lemma GrantedLeaves(s: Table, step: Step)
    requires step.Request? && Enabled(s, step) && Granted(s, step)
    ensures Leaves(LocksOn(s, step.res), LocksOn(Apply(s, step), step.res), step.txn, step.mode)
    ensures forall a :: a != step.res ==> LocksOn(Apply(s, step), a) == LocksOn(s, a)
  {
    DecidedLeaves(s, step);
    RequestChanges(s, step, step.res);
    hide Apply, Enabled, Granted, RequestChange, Leaves, LocksOn, Guarded;
    forall a | a != step.res ensures LocksOn(Apply(s, step), a) == LocksOn(s, a) {
      RequestChanges(s, step, a);
    }
  }

  lemma DecidedLeaves(s: Table, step: Step)
    requires step.Request? && Enabled(s, step) && Granted(s, step)
    ensures var ls := LocksOn(s, step.res);
            Leaves(ls, LocksAfter(ls, QueueOn(s, step.res), step.txn, RequestChange(s, step)), step.txn, step.mode)
  {
    hide Fits, FitsOthers, Queued;
    if step.found.Some? {
      assert Lock(step.txn, step.found.value) in LocksOn(s, step.res);
    }
  }

  ghost predicate Distinct(plan: seq<(ResId, LockType)>) {
    forall i, j :: 0 <= i < j < |plan| ==> plan[i].0 != plan[j].0
  }

  ghost predicate AsksAt(plan: seq<(ResId, LockType)>, n: nat, a: ResId) {
    exists k :: 0 <= k < n && k < |plan| && plan[k].0 == a
  }

  lemma {:induction false} ClimbedLeaves(s: Table, t: TxnId, plan: seq<(ResId, LockType)>, steps: seq<Step>, a: ResId)
    requires Distinct(plan) && Climbed(s, t, plan, steps)
    ensures forall k :: 0 <= k < |steps| && plan[k].0 == a ==>
                          Leaves(LocksOn(s, a), LocksOn(Run(s, steps), a), t, plan[k].1)
    ensures !AsksAt(plan, |steps|, a) ==> LocksOn(Run(s, steps), a) == LocksOn(s, a)
    decreases |steps|
  {
    hide Apply, Enabled, Granted, Leaves, LocksOn;
    if steps != [] {
      var n := |steps| - 1;
      ClimbedLeaves(s, t, plan, steps[..n], a);
      GrantedLeaves(Run(s, steps[..n]), steps[n]);
      assert plan[n].0 == a ==> !AsksAt(plan, n, a);
      assert AsksAt(plan, n, a) ==> AsksAt(plan, n + 1, a);
    }
  }

  lemma PlanIsDistinct(p: Parents, r: ResId, m: LockType)
    requires Acyclic(p)
    ensures Distinct(Plan(p, r, m))
  {
    var plan := Plan(p, r, m);
    var c := [r] + Climb(p, r, {});
    hide Climb;
    ClimbIsChain(p, r, {});
    forall i, j | 0 <= i < j < |plan| ensures plan[i].0 != plan[j].0 {
      var n := |c| - 1;
      assert plan[i].0 == c[n - i] && plan[j].0 == c[n - j];
      var part := c[n - j..n - i + 1];
      assert IsChain(p, part);
    }
  }

  /** What a granted call leaves: one lock request's worth on the resource and on each ancestor, there in IS for S
      and IS, in IX for X and IX, and nothing anywhere else. */
  lemma GrantedCallLeaves(s: Table, t: TxnId, r: ResId, m: LockType, steps: seq<Step>, a: ResId)
    requires Acyclic(s.parent) && Serves(s, t, Plan(s.parent, r, m), steps, true)
    ensures Leaves(LocksOn(s, r), LocksOn(Run(s, steps), r), t, m)
    ensures Above(s.parent, a, r) && a != r && m in {SHARED, INTENTION_SHARED} ==>
              Leaves(LocksOn(s, a), LocksOn(Run(s, steps), a), t, INTENTION_SHARED)
    ensures Above(s.parent, a, r) && a != r && m in {EXCLUSIVE, INTENTION_EXCLUSIVE} ==>
              Leaves(LocksOn(s, a), LocksOn(Run(s, steps), a), t, INTENTION_EXCLUSIVE)
    ensures !Above(s.parent, a, r) || (m == NONE && a != r) ==> LocksOn(Run(s, steps), a) == LocksOn(s, a)
  {
    hide Acyclic, Plan, Above, Climbed, Leaves, LocksOn, Run;
    var plan := Plan(s.parent, r, m);
    PlanIsDistinct(s.parent, r, m);
    PlanHasEnd(s.parent, r, m);
    PlanAsksAbove(s.parent, r, m, |plan| - 1);
    ClimbedLeaves(s, t, plan, steps, r);
    ClimbedLeaves(s, t, plan, steps, a);
    if Above(s.parent, a, r) && m != NONE {
      var k := AboveIsAsked(s.parent, r, m, a);
    } else if a != r {
      AsksNothing(s.parent, r, m, a);
    }
  }

  lemma AsksNothing(p: Parents, r: ResId, m: LockType, a: ResId)
    requires a != r && (m == NONE || !Above(p, a, r))
    ensures !AsksAt(Plan(p, r, m), |Plan(p, r, m)|, a)
  {
    hide Plan, Above;
    forall k | 0 <= k < |Plan(p, r, m)| ensures Plan(p, r, m)[k].0 != a {
      PlanAsksAbove(p, r, m, k);
    }
  }

  /** So where `t` held nothing before, it holds exactly one lock afterwards. */
  lemma OneLockEach(s: Table, t: TxnId, r: ResId, m: LockType, steps: seq<Step>, a: ResId)
    requires Acyclic(s.parent) && Serves(s, t, Plan(s.parent, r, m), steps, true)
    requires Above(s.parent, a, r) && !Holds(s, t, a) && m != NONE
    ensures var mine := if a == r then m
                        else if m == SHARED || m == INTENTION_SHARED then INTENTION_SHARED
                        else INTENTION_EXCLUSIVE;
            forall l: Lock :: l.txn == t ==> LocksOn(Run(s, steps), a)[l] == if l.mode == mine then 1 else 0
  {
    GrantedCallLeaves(s, t, r, m, steps, a);
    hide Acyclic, Plan, Above, Serves, LocksOn, Run;
    forall l: Lock | l.txn == t ensures LocksOn(s, a)[l] == 0 {
      assert l !in LocksOn(s, a);
    }
  }

  // ---------------------------------------------------------------- the request it queues

  lemma RefusedWaits(s: Table, step: Step)
    requires step.Request? && !Granted(s, step) && step.txn !in s.completed
    ensures RequestChange(s, step) == if Queued(QueueOn(s, step.res), step.txn) then Same else Waits(step.mode)
  {
    hide Fits, FitsOthers, Queued, LocksOn, QueueOn;
  }

  lemma RefusedQueues(s: Table, step: Step, a: ResId)
    requires step.Request? && Enabled(s, step) && !Granted(s, step) && step.txn !in s.completed
    ensures LocksOn(Apply(s, step), a) == LocksOn(s, a)
    ensures QueueOn(Apply(s, step), a)
         == if a == step.res && !Queued(QueueOn(s, a), step.txn) then QueueOn(s, a) + [Lock(step.txn, step.mode)]
            else QueueOn(s, a)
  {
    hide Queued, Guarded, Apply, Enabled, Granted, RequestChange, LocksOn, QueueOn;
    RequestChanges(s, step, a);
    RefusedWaits(s, step);
  }

  lemma GrantedQueuesNothing(s: Table, step: Step, a: ResId)
    requires step.Request? && Enabled(s, step) && Granted(s, step)
    ensures QueueOn(Apply(s, step), a) == QueueOn(s, a)
  {
    RequestChanges(s, step, a);
    hide Fits, FitsOthers, Queued, Guarded, Apply, LocksOn, QueueOn;
  }

  lemma {:induction false} ClimbedQueuesNothing(s: Table, t: TxnId, plan: seq<(ResId, LockType)>, steps: seq<Step>,
                                                a: ResId)
    requires Climbed(s, t, plan, steps)
    ensures QueueOn(Run(s, steps), a) == QueueOn(s, a)
    ensures Run(s, steps).completed == s.completed
    decreases |steps|
  {
    hide Apply, Enabled, Granted, QueueOn;
    if steps != [] {
      var n := |steps| - 1;
      ClimbedQueuesNothing(s, t, plan, steps[..n], a);
      GrantedQueuesNothing(Run(s, steps[..n]), steps[n], a);
      StepAround(Run(s, steps[..n]), steps[n]);
    }
  }

  /** A granted call queues nothing.  A refused one queues exactly one request, unless the transaction waits there
      already: where it was refused, in the mode asked for on the resource itself, in IS or IX on an ancestor; and it
      leaves the locks there alone. */
  lemma CallQueues(s: Table, t: TxnId, r: ResId, m: LockType, steps: seq<Step>, ok: bool, a: ResId)
    requires Acyclic(s.parent) && Serves(s, t, Plan(s.parent, r, m), steps, ok) && t !in s.completed
    ensures ok ==> QueueOn(Run(s, steps), a) == QueueOn(s, a)
    ensures !ok ==>
              var at := steps[|steps| - 1].res;
              var asked := if at == r then m
                           else if m == SHARED || m == INTENTION_SHARED then INTENTION_SHARED
                           else INTENTION_EXCLUSIVE;
              && Above(s.parent, at, r)
              && QueueOn(Run(s, steps), a)
                 == (if a == at && !Queued(QueueOn(s, a), t) then QueueOn(s, a) + [Lock(t, asked)] else QueueOn(s, a))
              && LocksOn(Run(s, steps), at) == LocksOn(s, at)
  {
    hide Acyclic, Plan, Above, Climbed, LocksOn, QueueOn, Apply, Enabled, Granted, Queued;
    var plan := Plan(s.parent, r, m);
    if ok {
      ClimbedQueuesNothing(s, t, plan, steps, a);
    } else {
      var n := |steps| - 1;
      var at := steps[n].res;
      PlanIsDistinct(s.parent, r, m);
      PlanAsksAbove(s.parent, r, m, n);
      if at == r && n < |plan| - 1 {
        LastIsAlone(s.parent, r, m, n);
      }
      assert !AsksAt(plan, n, at);
      ClimbedLeaves(s, t, plan, steps[..n], at);
      ClimbedQueuesNothing(s, t, plan, steps[..n], a);
      RefusedQueues(Run(s, steps[..n]), steps[n], a);
      RefusedQueues(Run(s, steps[..n]), steps[n], at);
    }
  }
}
