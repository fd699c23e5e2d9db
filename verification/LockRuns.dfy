/** Whole-run properties of the lock manager: strict retention, FIFO queues, wake-ups, and what is left
    behind by a completed transaction. */
module LockRuns {
  import opened Ids
  import opened LockModes
  import opened LockTable
  import opened LockSafety
  import opened Wrappers

  // ---------------------------------------------------------------- a step, seen from one resource

  ghost function LocksAfter(ls: multiset<Lock>, q: seq<LockRequest>, t: TxnId, c: Change): multiset<Lock> {
    match c
    case Added(m) => ls + multiset{Lock(t, m)}
    case Swapped(h, m) => ls - multiset{Lock(t, h)} + multiset{Lock(t, m)}
    case Refilled => RefilledLocks(ls, q, t)
    case _ => ls
  }

  ghost function QueueAfter(ls: multiset<Lock>, q: seq<LockRequest>, t: TxnId, c: Change): seq<LockRequest> {
    match c
    case Waits(m) => q + [Lock(t, m)]
    case Refilled => RefilledQueue(ls, q, t)
    case _ => q
  }

  /** The resources a step releases. */
  ghost function ReleasedBy(s: Table, step: Step): set<ResId> {
    match step
    case Release(t, r) => if MayRelease(s, t, r) then {r} else {}
    case Complete(t) => HeldBy(s, t)
    case _ => {}
  }

  ghost function ChangeOn(s: Table, step: Step, r: ResId): Change {
    if step.Request? then if step.res == r then RequestChange(s, step) else Same
    else if r in ReleasedBy(s, step) then Refilled
    else Same
  }

  ghost function Actor(step: Step): TxnId {
    if step.SetParent? then 0 else step.txn
  }

  ghost predicate Changes(s: Table, s': Table, r: ResId, t: TxnId, c: Change) {
    && LocksOn(s', r) == LocksAfter(LocksOn(s, r), QueueOn(s, r), t, c)
    && QueueOn(s', r) == QueueAfter(LocksOn(s, r), QueueOn(s, r), t, c)
    && Guarded(LocksOn(s, r), QueueOn(s, r), t, c)
  }

  lemma GrantViews(s: Table, t: TxnId, r: ResId, m: LockType, q: ResId)
    ensures LocksOn(Grant(s, t, r, m), q) == if q == r then LocksOn(s, r) + multiset{Lock(t, m)} else LocksOn(s, q)
    ensures QueueOn(Grant(s, t, r, m), q) == QueueOn(s, q)
  {
  }

  lemma ReplaceViews(s: Table, t: TxnId, r: ResId, h: LockType, m: LockType, q: ResId)
    ensures LocksOn(Replace(s, t, r, h, m), q)
         == if q == r then LocksOn(s, r) - multiset{Lock(t, h)} + multiset{Lock(t, m)} else LocksOn(s, q)
    ensures QueueOn(Replace(s, t, r, h, m), q) == QueueOn(s, q)
  {
  }

  lemma EnqueueViews(s: Table, t: TxnId, r: ResId, m: LockType, q: ResId)
    ensures LocksOn(Enqueue(s, t, r, m), q) == LocksOn(s, q)
    ensures QueueOn(Enqueue(s, t, r, m), q) == if q == r then QueueOn(s, q) + [Lock(t, m)] else QueueOn(s, q)
  {
  }

  lemma UpdateChanges(s: Table, t: TxnId, q: ResId, c: Change, r: ResId)
    requires Guarded(LocksOn(s, q), QueueOn(s, q), t, c) && !c.Refilled?
    ensures Changes(s, Update(s, t, q, c), r, t, if q == r then c else Same)
  {
    match c
    case Added(m) => GrantViews(s, t, q, m, r);
    case Swapped(h, m) => ReplaceViews(s, t, q, h, m, r);
    case Waits(m) => EnqueueViews(s, t, q, m, r);
    case _ =>
  }

  lemma RequestChanges(s: Table, step: Step, r: ResId)
    requires step.Request? && Enabled(s, step)
    ensures Changes(s, Apply(s, step), r, step.txn, ChangeOn(s, step, r))
  {
    RequestIsGuarded(s, step);
    UpdateChanges(s, step.txn, step.res, RequestChange(s, step), r);
  }

  lemma ReleaseChanges(s: Table, t: TxnId, q: ResId, r: ResId)
    requires Inv(s)
    ensures Changes(s, Apply(s, Release(t, q)), r, t, ChangeOn(s, Release(t, q), r))
  {
    if MayRelease(s, t, q) {
      assert q in s.locks;
      ResourceAfterReleaseAll(s, t, {q}, r);
    }
  }

  lemma CompleteViews(s: Table, t: TxnId, r: ResId)
    requires Inv(s) && t in s.held
    ensures LocksOn(Apply(s, Complete(t)), r)
         == if r in HeldBy(s, t) then LocksAfterRelease(s, t, r) else LocksOn(s, r)
    ensures QueueOn(Apply(s, Complete(t)), r)
         == if r in HeldBy(s, t) then QueueAfterRelease(s, t, r) else QueueOn(s, r)
  {
    hide RefilledLocks, RefilledQueue, IndexAgrees;
    var marked := s.(completed := s.completed + {t});
    HeldIsLocked(s, t);
    assert NoEmptyEntries(marked);
    assert LocksOn(marked, r) == LocksOn(s, r) && QueueOn(marked, r) == QueueOn(s, r);
    ResourceAfterReleaseAll(marked, t, s.held[t], r);
    ForgetViews(ReleaseAll(marked, t, s.held[t]), t, r);
  }

  lemma ForgetViews(s: Table, t: TxnId, r: ResId)
    ensures LocksOn(Forget(s, t), r) == LocksOn(s, r)
    ensures QueueOn(Forget(s, t), r) == QueueOn(s, r)
  {
  }

  lemma CompleteChanges(s: Table, t: TxnId, r: ResId)
    requires Inv(s)
    ensures Changes(s, Apply(s, Complete(t)), r, t, ChangeOn(s, Complete(t), r))
  {
    hide Inv, RefilledLocks, RefilledQueue, Guarded, Apply;
    var s' := Apply(s, Complete(t));
    if t in s.held {
      CompleteViews(s, t, r);
    } else {
      NothingHeldCompletes(s, t, r);
    }
    assert LocksOn(s', r) == (if r in HeldBy(s, t) then LocksAfterRelease(s, t, r) else LocksOn(s, r));
    assert QueueOn(s', r) == (if r in HeldBy(s, t) then QueueAfterRelease(s, t, r) else QueueOn(s, r));
    ReleaseIsGuarded(LocksOn(s, r), QueueOn(s, r), t);
  }

  lemma ReleaseIsGuarded(ls: multiset<Lock>, q: seq<LockRequest>, t: TxnId)
    ensures Guarded(ls, q, t, Refilled) && Guarded(ls, q, t, Same)
  {
  }

  lemma NothingHeldCompletes(s: Table, t: TxnId, r: ResId)
    requires t !in s.held
    ensures LocksOn(Apply(s, Complete(t)), r) == LocksOn(s, r)
    ensures QueueOn(Apply(s, Complete(t)), r) == QueueOn(s, r)
    ensures HeldBy(s, t) == {}
  {
  }

  lemma StepChanges(s: Table, step: Step, r: ResId)
    requires Inv(s) && Enabled(s, step)
    ensures Changes(s, Apply(s, step), r, Actor(step), ChangeOn(s, step, r))
  {
    match step
    case Request(_, _, _, _) => RequestChanges(s, step, r);
    case Release(t, q) => ReleaseChanges(s, t, q, r);
    case Complete(t) => CompleteChanges(s, t, r);
    case SetParent(_, _) =>
  }

  // ---------------------------------------------------------------- strict retention

  lemma ChangeRetains(ls: multiset<Lock>, q: seq<LockRequest>, t: TxnId, c: Change, x: TxnId)
    requires Guarded(ls, q, t, c) && (c.Refilled? ==> x != t)
    ensures Owns(ls, x) ==> Owns(LocksAfter(ls, q, t, c), x)
    ensures Lock(x, EXCLUSIVE) in ls ==> Lock(x, EXCLUSIVE) in LocksAfter(ls, q, t, c)
  {
    var ls' := LocksAfter(ls, q, t, c);
    if Owns(ls, x) {
      var l :| l in ls && l.txn == x;
      assert l in ls' || (c.Swapped? && Lock(x, c.mode) in ls');
    }
  }

  lemma StepAround(s: Table, step: Step)
    ensures Apply(s, step).completed == if step.Complete? then s.completed + {step.txn} else s.completed
    ensures step.SetParent? || Apply(s, step).parent == s.parent
  {
    match step
    case SetParent(_, _) =>
    case Request(t, r, m, found) => assert Apply(s, step) == Update(s, t, r, RequestChange(s, step));
    case Release(_, _) =>
    case Complete(_) =>
  }

  lemma ChangesRetain(s: Table, s': Table, r: ResId, t: TxnId, c: Change, x: TxnId)
    requires Changes(s, s', r, t, c) && (c.Refilled? ==> x != t)
    ensures Holds(s, x, r) ==> Holds(s', x, r)
    ensures Lock(x, EXCLUSIVE) in LocksOn(s, r) ==> Lock(x, EXCLUSIVE) in LocksOn(s', r)
  {
    ChangeRetains(LocksOn(s, r), QueueOn(s, r), t, c, x);
  }

  lemma RefillerIsComplete(s: Table, step: Step, r: ResId)
    requires Enabled(s, step) && ChangeOn(s, step, r).Refilled?
    ensures Actor(step) in s.completed || step.Complete?
  {
    if step.Request? {
      RequestIsGuarded(s, step);
    }
  }

  lemma StepRetains(s: Table, step: Step, t: TxnId, r: ResId)
    requires Inv(s) && Enabled(s, step) && t !in Apply(s, step).completed
    ensures t !in s.completed
    ensures Holds(s, t, r) ==> Holds(Apply(s, step), t, r)
    ensures Lock(t, EXCLUSIVE) in LocksOn(s, r) ==> Lock(t, EXCLUSIVE) in LocksOn(Apply(s, step), r)
  {
    hide Apply, Inv, Enabled, Changes, ChangeOn, Owns;
    StepAround(s, step);
    StepChanges(s, step, r);
    if ChangeOn(s, step, r).Refilled? {
      RefillerIsComplete(s, step, r);
    }
    ChangesRetain(s, Apply(s, step), r, Actor(step), ChangeOn(s, step, r), t);
  }

  /** Strict two-phase locking: until it completes, a transaction loses no resource and its exclusive
      locks keep their mode, whatever any transaction does in between. */
  lemma {:induction false} Retention(s: Table, steps: seq<Step>, t: TxnId, r: ResId)
    requires Inv(s) && Legal(s, steps) && t !in Run(s, steps).completed
    ensures t !in s.completed
    ensures Holds(s, t, r) ==> Holds(Run(s, steps), t, r)
    ensures Lock(t, EXCLUSIVE) in LocksOn(s, r) ==> Lock(t, EXCLUSIVE) in LocksOn(Run(s, steps), r)
    decreases |steps|
  {
    if steps != [] {
      var n := |steps| - 1;
      RunKeepsInv(s, steps[..n]);
      StepRetains(Run(s, steps[..n]), steps[n], t, r);
      Retention(s, steps[..n], t, r);
    }
  }

  // ---------------------------------------------------------------- FIFO queues

  ghost function EnqueuedBy(s: Table, step: Step, r: ResId): seq<LockRequest> {
    var c := ChangeOn(s, step, r);
    if c.Waits? then [Lock(Actor(step), c.mode)] else []
  }

  ghost function DequeuedBy(s: Table, step: Step, r: ResId): seq<LockRequest> {
    if ChangeOn(s, step, r).Refilled? then Admitted(s, Actor(step), r) else []
  }

  ghost function AllEnqueued(s: Table, steps: seq<Step>, r: ResId): seq<LockRequest> {
    if steps == [] then []
    else var n := |steps| - 1;
         AllEnqueued(s, steps[..n], r) + EnqueuedBy(Run(s, steps[..n]), steps[n], r)
  }

  ghost function AllDequeued(s: Table, steps: seq<Step>, r: ResId): seq<LockRequest> {
    if steps == [] then []
    else var n := |steps| - 1;
         AllDequeued(s, steps[..n], r) + DequeuedBy(Run(s, steps[..n]), steps[n], r)
  }

  lemma ChangeConservesQueue(s: Table, s': Table, r: ResId, t: TxnId, c: Change)
    requires Changes(s, s', r, t, c)
    ensures QueueOn(s, r) + (if c.Waits? then [Lock(t, c.mode)] else [])
         == (if c.Refilled? then Admitted(s, t, r) else []) + QueueOn(s', r)
  {
  }

  lemma StepConservesQueue(s: Table, step: Step, r: ResId)
    requires Inv(s) && Enabled(s, step)
    ensures QueueOn(s, r) + EnqueuedBy(s, step, r) == DequeuedBy(s, step, r) + QueueOn(Apply(s, step), r)
  {
    StepChanges(s, step, r);
    ChangeConservesQueue(s, Apply(s, step), r, Actor(step), ChangeOn(s, step, r));
  }

  lemma Splice(q0: seq<LockRequest>, es: seq<LockRequest>, ds: seq<LockRequest>, q1: seq<LockRequest>,
               e: seq<LockRequest>, d: seq<LockRequest>, q2: seq<LockRequest>)
    requires q0 + es == ds + q1 && q1 + e == d + q2
    ensures q0 + (es + e) == (ds + d) + q2
  {
    assert q0 + (es + e) == (q0 + es) + e == ds + (q1 + e) == (ds + d) + q2;
  }

  /** Per resource, everything ever enqueued is what was granted from the queue, in the same order,
      followed by what is still waiting. */
  lemma {:induction false} FifoConservation(s: Table, steps: seq<Step>, r: ResId)
    requires Inv(s) && Legal(s, steps)
    ensures QueueOn(s, r) + AllEnqueued(s, steps, r) == AllDequeued(s, steps, r) + QueueOn(Run(s, steps), r)
    decreases |steps|
  {
    if steps != [] {
      var n := |steps| - 1;
      var mid := Run(s, steps[..n]);
      RunKeepsInv(s, steps[..n]);
      FifoConservation(s, steps[..n], r);
      StepConservesQueue(mid, steps[n], r);
      Splice(QueueOn(s, r), AllEnqueued(s, steps[..n], r), AllDequeued(s, steps[..n], r), QueueOn(mid, r),
             EnqueuedBy(mid, steps[n], r), DequeuedBy(mid, steps[n], r), QueueOn(Run(s, steps), r));
    }
  }

  // ---------------------------------------------------------------- wake-ups

  ghost predicate HeadBlocked(s: Table, r: ResId) {
    QueueOn(s, r) != [] ==> !Fits(LocksOn(s, r), QueueOn(s, r)[0].mode)
  }

  /** A replacement respects the strength order: the new mode covers the one it replaces. */
  ghost predicate CoverOnly(s: Table, step: Step) {
    step.Request? && RequestChange(s, step).Swapped? ==> Covers(step.mode, step.found.value)
  }

  /** The weaker demand that no replacement blocks less than the mode it replaces. */
  ghost predicate BlockingKept(s: Table, step: Step) {
    step.Request? && RequestChange(s, step).Swapped? ==> BlocksAsMuch(step.mode, step.found.value)
  }

  ghost predicate BlockingRun(s: Table, steps: seq<Step>) {
    steps == [] ||
    (var n := |steps| - 1; BlockingRun(s, steps[..n]) && BlockingKept(Run(s, steps[..n]), steps[n]))
  }

  ghost predicate CoverOnlyRun(s: Table, steps: seq<Step>) {
    steps == [] ||
    (var n := |steps| - 1; CoverOnlyRun(s, steps[..n]) && CoverOnly(Run(s, steps[..n]), steps[n]))
  }

  ghost predicate Blocked(ls: multiset<Lock>, q: seq<LockRequest>) {
    q != [] ==> !Fits(ls, q[0].mode)
  }

  lemma ChangeKeepsBlocked(ls: multiset<Lock>, q: seq<LockRequest>, t: TxnId, c: Change)
    requires Guarded(ls, q, t, c) && Blocked(ls, q)
    requires c.Swapped? ==> BlocksAsMuch(c.mode, c.was)
    ensures Blocked(LocksAfter(ls, q, t, c), QueueAfter(ls, q, t, c))
  {
    if c.Refilled? {
      AdmitIsMaximalPrefix(Drop(ls, t), q);
    } else if q != [] {
      var l :| l in ls && !Compatible(l.mode, q[0].mode);
      var ls' := LocksAfter(ls, q, t, c);
      assert l in ls' || (c.Swapped? && l == Lock(t, c.was) && Lock(t, c.mode) in ls');
    }
  }

  lemma StepKeepsHeadBlocked(s: Table, step: Step, r: ResId)
    requires Inv(s) && Enabled(s, step) && BlockingKept(s, step) && HeadBlocked(s, r)
    ensures HeadBlocked(Apply(s, step), r)
  {
    hide Apply, Inv, Enabled, Fits, Guarded, LocksAfter, QueueAfter;
    StepChanges(s, step, r);
    ChangeKeepsBlocked(LocksOn(s, r), QueueOn(s, r), Actor(step), ChangeOn(s, step, r));
  }

  /** In every run, a successful release leaves the head of each queue it served in conflict with a lock. */
  lemma ReleaseLeavesHeadBlocked(s: Table, step: Step, r: ResId)
    requires Inv(s) && Enabled(s, step) && r in ReleasedBy(s, step)
    ensures HeadBlocked(Apply(s, step), r)
  {
    hide Apply, Inv, Enabled;
    StepChanges(s, step, r);
    AdmitIsMaximalPrefix(Drop(LocksOn(s, r), step.txn), QueueOn(s, r));
  }

  /** No lost wake-up while no replacement blocks less: nobody at the head of a queue could be granted. */
  lemma {:induction false} NoLostWakeup(steps: seq<Step>, r: ResId)
    requires Legal(EMPTY, steps) && BlockingRun(EMPTY, steps)
    ensures HeadBlocked(Run(EMPTY, steps), r)
    decreases |steps|
  {
    if steps != [] {
      var n := |steps| - 1;
      EmptyInv();
      RunKeepsInv(EMPTY, steps[..n]);
      NoLostWakeup(steps[..n], r);
      StepKeepsHeadBlocked(Run(EMPTY, steps[..n]), steps[n], r);
    }
  }

  lemma EmptyInv()
    ensures Inv(EMPTY)
  {
  }

  ghost function WakeupLosingRun(h: LockType, m: LockType, waiting: LockType): seq<Step> {
    [Request(1, 7, h, None), Request(2, 7, waiting, None), Request(1, 7, m, Some(h))]
  }

  /** Transaction 1 holds resource 7 in one mode, and `q` waits there. */
  ghost function OneHolder(m: LockType, q: seq<LockRequest>): Table {
    Table(map[7 := multiset{Lock(1, m)}], if q == [] then map[] else map[7 := q], map[1 := {7}], {}, map[])
  }

  lemma FirstRequest(h: LockType)
    ensures Enabled(EMPTY, Request(1, 7, h, None)) && Apply(EMPTY, Request(1, 7, h, None)) == OneHolder(h, [])
  {
    assert LocksOn(EMPTY, 7) == multiset{} && HeldBy(EMPTY, 1) + {7} == {7};
    assert !Holds(EMPTY, 1, 7) && Fits(LocksOn(EMPTY, 7), h);
    assert Apply(EMPTY, Request(1, 7, h, None)) == Grant(EMPTY, 1, 7, h);
    assert multiset{} + multiset{Lock(1, h)} == multiset{Lock(1, h)};
  }

  lemma SecondRequest(h: LockType, w: LockType)
    requires !Compatible(h, w)
    ensures var s := OneHolder(h, []);
            && Enabled(s, Request(2, 7, w, None))
            && Apply(s, Request(2, 7, w, None)) == OneHolder(h, [Lock(2, w)])
  {
    var s := OneHolder(h, []);
    assert Lock(1, h) in LocksOn(s, 7) && QueueOn(s, 7) == [];
    assert !Fits(LocksOn(s, 7), w);
    assert [] + [Lock(2, w)] == [Lock(2, w)];
  }

  lemma ReplaceTheHolder(h: LockType, m: LockType, q: seq<LockRequest>)
    ensures Replace(OneHolder(h, q), 1, 7, h, m) == OneHolder(m, q)
  {
    var s := OneHolder(h, q);
    var one := multiset{Lock(1, h)};
    assert LocksOn(s, 7) == one;
    assert one - one + multiset{Lock(1, m)} == multiset{Lock(1, m)};
    assert HeldBy(s, 1) + {7} == {7};
  }

  lemma WeakeningRequest(h: LockType, m: LockType, q: seq<LockRequest>)
    requires m != h && h != EXCLUSIVE
    ensures var s := OneHolder(h, q);
            && Enabled(s, Request(1, 7, m, Some(h)))
            && Apply(s, Request(1, 7, m, Some(h))) == OneHolder(m, q)
  {
    hide ReleaseAll, Forget, Grant, Enqueue;
    var s := OneHolder(h, q);
    var one := multiset{Lock(1, h)};
    assert LocksOn(s, 7) == one && Lock(1, h) in one;
    assert FitsOthers(one, 1, m);
    assert RequestOn(s, 1, 7, m, Some(h)).change == Swapped(h, m);
    hide FitsOthers, Decide, RequestOn, Refuse, Replace;
    ReplaceTheHolder(h, m, q);
  }

  /** The restriction is exact: every replacement the code can make that blocks less than the replaced mode
      loses a wake-up in some run. */
  lemma WeakerBlockingLosesWakeup(h: LockType, m: LockType)
    requires h != EXCLUSIVE && !BlocksAsMuch(m, h)
    ensures exists waiting :: var steps := WakeupLosingRun(h, m, waiting);
              && Legal(EMPTY, steps)
              && !HeadBlocked(Run(EMPTY, steps), 7)
  {
    BlocksAsMuchIff(m, h);
    var w :| Compatible(m, w) && !Compatible(h, w);
    var steps := WakeupLosingRun(h, m, w);
    FirstRequest(h);
    SecondRequest(h, w);
    WeakeningRequest(h, m, [Lock(2, w)]);
    ThreeSteps(steps[0], steps[1], steps[2]);
    var s3 := OneHolder(m, [Lock(2, w)]);
    assert LocksOn(s3, 7) == multiset{Lock(1, m)} && QueueOn(s3, 7) == [Lock(2, w)];
  }

  lemma ThreeSteps(a: Step, b: Step, c: Step)
    ensures var s1 := Apply(EMPTY, a); var s2 := Apply(s1, b);
            && Run(EMPTY, [a, b, c]) == Apply(s2, c)
            && (Enabled(EMPTY, a) && Enabled(s1, b) && Enabled(s2, c) ==> Legal(EMPTY, [a, b, c]))
  {
    RunSnoc(EMPTY, [], a);
    RunSnoc(EMPTY, [a], b);
    RunSnoc(EMPTY, [a, b], c);
    assert [] + [a] == [a] && [a] + [b] == [a, b] && [a, b] + [c] == [a, b, c];
  }

  // ---------------------------------------------------------------- completion

  /** completeTransaction, resource by resource: on what the index says the transaction holds, its locks are
      dropped and the longest grantable FIFO prefix is granted; nothing else moves; and the transaction still
      holds such a resource exactly when one of its own stale requests was in that prefix.  For a transaction
      that was not completed before, the index says exactly what it holds. */
  lemma CompleteIsPointwise(s: Table, t: TxnId, r: ResId) returns (k: nat)
    requires Inv(s)
    ensures IsMaximalPrefix(Drop(LocksOn(s, r), t), QueueOn(s, r), k)
    ensures var s', kept, q := Apply(s, Complete(t)), Drop(LocksOn(s, r), t), QueueOn(s, r);
            if r in HeldBy(s, t) then
              && LocksOn(s', r) == kept + multiset(q[..k])
              && QueueOn(s', r) == q[k..]
              && (Holds(s', t, r) <==> Queued(q[..k], t))
            else LocksOn(s', r) == LocksOn(s, r) && QueueOn(s', r) == q
    ensures t !in s.completed ==> (r in HeldBy(s, t) <==> Holds(s, t, r))
  {
    k := Admit(Drop(LocksOn(s, r), t), QueueOn(s, r));
    AdmitIsMaximalPrefix(Drop(LocksOn(s, r), t), QueueOn(s, r));
    assert IndexAt(s, t, r);
    CompleteChanges(s, t, r);
    OwnersAfterRelease(s, t, r, t);
  }

  /** The transaction has no request left in any queue. */
  ghost predicate NoRequestLeft(s: Table, t: TxnId) {
    forall r :: !Queued(QueueOn(s, r), t)
  }

  ghost predicate CleanRun(s: Table, steps: seq<Step>) {
    steps == [] ||
    (var n := |steps| - 1;
     CleanRun(s, steps[..n]) && (steps[n].Complete? ==> NoRequestLeft(Run(s, steps[..n]), steps[n].txn)))
  }

  ghost predicate Absent(ls: multiset<Lock>, q: seq<LockRequest>, x: TxnId) {
    !Owns(ls, x) && !Queued(q, x)
  }

  ghost predicate Gone(s: Table, t: TxnId, r: ResId) {
    t in s.completed ==> Absent(LocksOn(s, r), QueueOn(s, r), t)
  }

  lemma ChangeKeepsAbsent(ls: multiset<Lock>, q: seq<LockRequest>, t: TxnId, c: Change, x: TxnId)
    requires Guarded(ls, q, t, c)
    requires Absent(ls, q, x) && (t != x || c.Same? || c.Refilled?)
    ensures Absent(LocksAfter(ls, q, t, c), QueueAfter(ls, q, t, c), x)
  {
    var ls', q' := LocksAfter(ls, q, t, c), QueueAfter(ls, q, t, c);
    forall l | l in ls' ensures l.txn != x {
      if c.Refilled? && l !in ls {
        var admitted := q[..Admit(Drop(ls, t), q)];
        assert l in multiset(admitted);
        assert l in admitted;
      }
    }
    forall i | 0 <= i < |q'| ensures q'[i].txn != x {
      assert q'[i] in q || q'[i].txn == t;
    }
  }

  lemma CompletedIsAbsent(ls: multiset<Lock>, q: seq<LockRequest>, t: TxnId)
    requires !Queued(q, t)
    ensures Absent(LocksAfter(ls, q, t, Refilled), QueueAfter(ls, q, t, Refilled), t)
  {
    var kept := Drop(ls, t);
    assert Absent(kept, q, t);
    assert Drop(kept, t) == kept;
    ChangeKeepsAbsent(kept, q, t, Refilled, t);
  }

  lemma ChangesKeepAbsent(s: Table, s': Table, r: ResId, t: TxnId, c: Change, x: TxnId)
    requires Changes(s, s', r, t, c)
    requires Absent(LocksOn(s, r), QueueOn(s, r), x) && (t != x || c.Same? || c.Refilled?)
    ensures Absent(LocksOn(s', r), QueueOn(s', r), x)
  {
    ChangeKeepsAbsent(LocksOn(s, r), QueueOn(s, r), t, c, x);
  }

  lemma StepKeepsGone(s: Table, step: Step, t: TxnId, r: ResId)
    requires Inv(s) && Enabled(s, step) && Gone(s, t, r)
    requires step.Complete? ==> NoRequestLeft(s, step.txn)
    ensures Gone(Apply(s, step), t, r)
  {
    hide Apply, RefilledLocks, RefilledQueue;
    StepAround(s, step);
    StepChanges(s, step, r);
    if t in s.completed {
      hide Inv, Changes, Enabled, Absent;
      ChangesKeepAbsent(s, Apply(s, step), r, Actor(step), ChangeOn(s, step, r), t);
    } else if step == Complete(t) {
      assert IndexAt(s, t, r);
      CompletedIsAbsent(LocksOn(s, r), QueueOn(s, r), t);
    }
  }

  /** On runs where no transaction completes with a request still queued, completed transactions hold
      nothing and wait for nothing. */
  lemma {:induction false} CompletedHoldNothing(steps: seq<Step>, t: TxnId, r: ResId)
    requires Legal(EMPTY, steps) && CleanRun(EMPTY, steps) && t in Run(EMPTY, steps).completed
    ensures !Holds(Run(EMPTY, steps), t, r) && !Queued(QueueOn(Run(EMPTY, steps), r), t)
  {
    CompletedAreGone(steps, t, r);
  }

  lemma {:induction false} CompletedAreGone(steps: seq<Step>, t: TxnId, r: ResId)
    requires Legal(EMPTY, steps) && CleanRun(EMPTY, steps)
    ensures Gone(Run(EMPTY, steps), t, r)
    decreases |steps|
  {
    if steps != [] {
      var n := |steps| - 1;
      EmptyInv();
      RunKeepsInv(EMPTY, steps[..n]);
      CompletedAreGone(steps[..n], t, r);
      StepKeepsGone(Run(EMPTY, steps[..n]), steps[n], t, r);
    }
  }

  // ---------------------------------------------------------------- exactly when completion leaves nothing

  /** `t` holds or awaits `r`. */
  ghost predicate Involved(s: Table, t: TxnId, r: ResId) {
    !Absent(LocksOn(s, r), QueueOn(s, r), t)
  }

  ghost predicate Uninvolved(s: Table, t: TxnId) {
    forall r :: !Involved(s, t, r)
  }

  lemma ReleaseKeepsQueued(ls: multiset<Lock>, q: seq<LockRequest>, t: TxnId, x: TxnId)
    requires Queued(q, x)
    ensures !Absent(RefilledLocks(ls, q, t), RefilledQueue(ls, q, t), x)
  {
    var k := Admit(Drop(ls, t), q);
    var i :| 0 <= i < |q| && q[i].txn == x;
    if i < k {
      assert q[..k][i] == q[i];
      assert q[i] in multiset(q[..k]);
      assert q[i] in RefilledLocks(ls, q, t);
    } else {
      assert q[k..][i - k] == q[i];
    }
  }

  /** A transaction that completes holds and awaits nothing afterwards if and only if it had no request left
      in any queue. */
  lemma CompletionLeavesNothingIff(s: Table, t: TxnId)
    requires Inv(s) && t !in s.completed
    ensures Uninvolved(Apply(s, Complete(t)), t) <==> NoRequestLeft(s, t)
  {
    hide Apply, RefilledLocks, RefilledQueue;
    var s' := Apply(s, Complete(t));
    forall r ensures !Queued(QueueOn(s, r), t) ==> !Involved(s', t, r)
             ensures Queued(QueueOn(s, r), t) ==> Involved(s', t, r) {
      assert IndexAt(s, t, r);
      CompleteChanges(s, t, r);
      if Queued(QueueOn(s, r), t) {
        ReleaseKeepsQueued(LocksOn(s, r), QueueOn(s, r), t, t);
      } else {
        CompletedIsAbsent(LocksOn(s, r), QueueOn(s, r), t);
      }
    }
  }

  lemma ChangeKeepsInvolved(ls: multiset<Lock>, q: seq<LockRequest>, t: TxnId, c: Change, x: TxnId)
    requires Guarded(ls, q, t, c) && (c.Refilled? ==> x != t)
    requires !Absent(ls, q, x)
    ensures !Absent(LocksAfter(ls, q, t, c), QueueAfter(ls, q, t, c), x)
  {
    if Owns(ls, x) {
      ChangeRetains(ls, q, t, c, x);
    } else if c.Refilled? {
      ReleaseKeepsQueued(ls, q, t, x);
    } else {
      var i :| 0 <= i < |q| && q[i].txn == x;
      assert QueueAfter(ls, q, t, c)[i] == q[i];
    }
  }

  /** What a completed transaction holds or awaits changes by nothing but its own release. */
  lemma CompletedStaysInvolvedIff(s: Table, step: Step, t: TxnId, r: ResId)
    requires Inv(s) && Enabled(s, step) && t in s.completed
    requires (step.Release? || step.Complete?) ==> step.txn != t
    ensures Involved(Apply(s, step), t, r) <==> Involved(s, t, r)
  {
    hide Apply, Inv, Absent, RefilledLocks, RefilledQueue, Enabled;
    StepChanges(s, step, r);
    CompletedAsksInVain(s, step, t, r);
    var ls, q, c := LocksOn(s, r), QueueOn(s, r), ChangeOn(s, step, r);
    if Absent(ls, q, t) {
      ChangeKeepsAbsent(ls, q, Actor(step), c, t);
    } else {
      ChangeKeepsInvolved(ls, q, Actor(step), c, t);
    }
  }

  lemma CompletedAsksInVain(s: Table, step: Step, t: TxnId, r: ResId)
    requires Enabled(s, step) && t in s.completed && ((step.Release? || step.Complete?) ==> step.txn != t)
    ensures Actor(step) == t ==> ChangeOn(s, step, r).Same?
  {
  }
}
