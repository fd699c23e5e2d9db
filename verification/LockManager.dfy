/** The lock manager itself, with the maps it updates in place, proved against the steps of LockTable. */
module LockManagers {
  import opened Ids
  import opened LockModes
  import opened LockTable
  import opened LockSafety
  import opened LockHierarchy
  import opened LockAnswers
  import opened Wrappers

  // ---------------------------------------------------------------- tables with the same contents

  ghost predicate SameViews(a: Table, b: Table) {
    && a.completed == b.completed && a.parent == b.parent
    && (forall r :: LocksOn(a, r) == LocksOn(b, r) && QueueOn(a, r) == QueueOn(b, r))
    && (forall x :: HeldBy(a, x) == HeldBy(b, x))
  }

  /** Without empty entries, a table is determined by what it says. */
  lemma SameViewsSameTable(a: Table, b: Table)
    requires NoEmptyEntries(a) && NoEmptyEntries(b) && SameViews(a, b)
    ensures a == b
  {
    forall r ensures r in a.locks <==> r in b.locks
             ensures r in a.queues <==> r in b.queues
             ensures r in a.locks ==> a.locks[r] == b.locks[r]
             ensures r in a.queues ==> a.queues[r] == b.queues[r] {
      assert LocksOn(a, r) == LocksOn(b, r) && QueueOn(a, r) == QueueOn(b, r);
    }
    forall x ensures x in a.held <==> x in b.held
             ensures x in a.held ==> a.held[x] == b.held[x] {
      assert HeldBy(a, x) == HeldBy(b, x);
    }
    assert a.locks == b.locks && a.queues == b.queues && a.held == b.held;
  }

  /** What `after` says, when `rs` are released from `before`. */
  ghost predicate Released(before: Table, after: Table, t: TxnId, rs: set<ResId>) {
    && after.completed == before.completed && after.parent == before.parent
    && (forall r :: LocksOn(after, r) == if r in rs then LocksAfterRelease(before, t, r) else LocksOn(before, r))
    && (forall r :: QueueOn(after, r) == if r in rs then QueueAfterRelease(before, t, r) else QueueOn(before, r))
    && (forall x :: HeldBy(after, x) == HeldAfterRelease(before, t, rs, x))
  }

  lemma ReleaseAllReleases(s: Table, t: TxnId, rs: set<ResId>)
    requires NoEmptyEntries(s) && rs <= s.locks.Keys
    ensures Released(s, ReleaseAll(s, t, rs), t, rs)
  {
    var after := ReleaseAll(s, t, rs);
    forall r ensures LocksOn(after, r) == (if r in rs then LocksAfterRelease(s, t, r) else LocksOn(s, r))
             ensures QueueOn(after, r) == (if r in rs then QueueAfterRelease(s, t, r) else QueueOn(s, r)) {
      ResourceAfterReleaseAll(s, t, rs, r);
    }
    forall x ensures HeldBy(after, x) == HeldAfterRelease(s, t, rs, x) {
      HeldByAfterReleaseAll(s, t, rs, x);
    }
  }

  lemma HeldOneMore(s: Table, mid: Table, t: TxnId, visited: set<ResId>, r: ResId, x: TxnId)
    requires r !in visited && LocksOn(mid, r) == LocksOn(s, r) && QueueOn(mid, r) == QueueOn(s, r)
    requires HeldBy(mid, x) == HeldAfterRelease(s, t, visited, x)
    ensures HeldAfterRelease(mid, t, {r}, x) == HeldAfterRelease(s, t, visited + {r}, x)
  {
    assert Admitted(mid, t, r) == Admitted(s, t, r);
    assert HandedTo(mid, t, {r}, x) == HandedTo(s, t, {r}, x);
    assert HandedTo(s, t, visited + {r}, x) == HandedTo(s, t, visited, x) + HandedTo(s, t, {r}, x);
    assert r !in HandedTo(s, t, visited, x);
  }

  /** Releases compose resource by resource, in any order. */
  lemma ReleasesCompose(s: Table, mid: Table, next: Table, after: Table, t: TxnId, visited: set<ResId>, r: ResId)
    requires r !in visited
    requires Released(s, mid, t, visited) && Released(mid, next, t, {r}) && Released(s, after, t, visited + {r})
    ensures SameViews(next, after)
  {
    hide RefilledLocks, RefilledQueue, HandedTo;
    forall x ensures HeldBy(next, x) == HeldBy(after, x) {
      HeldOneMore(s, mid, t, visited, r, x);
    }
    assert LocksOn(mid, r) == LocksOn(s, r) && QueueOn(mid, r) == QueueOn(s, r);
  }

  lemma ReleaseTwice(s: Table, t: TxnId, visited: set<ResId>, r: ResId)
    requires Inv(s) && t in s.completed
    requires visited + {r} <= HeldBy(s, t) && r !in visited
    ensures Inv(ReleaseAll(s, t, visited))
    ensures MayRelease(ReleaseAll(s, t, visited), t, r)
    ensures ReleaseAll(ReleaseAll(s, t, visited), t, {r}) == ReleaseAll(s, t, visited + {r})
  {
    hide ReleaseAll;
    HeldIsLocked(s, t);
    var mid := ReleaseAll(s, t, visited);
    ReleaseAllKeepsInv(s, t, visited);
    ReleaseAllReleases(s, t, visited);
    assert Holds(mid, t, r) by {
      assert IndexAt(s, t, r);
      assert LocksOn(mid, r) == LocksOn(s, r);
    }
    assert r in mid.locks;
    ReleaseAllKeepsInv(mid, t, {r});
    ReleaseAllReleases(mid, t, {r});
    ReleaseAllKeepsInv(s, t, visited + {r});
    ReleaseAllReleases(s, t, visited + {r});
    ReleasesCompose(s, mid, ReleaseAll(mid, t, {r}), ReleaseAll(s, t, visited + {r}), t, visited, r);
    SameViewsSameTable(ReleaseAll(mid, t, {r}), ReleaseAll(s, t, visited + {r}));
  }

  // ---------------------------------------------------------------- scans over one lock set or queue

  method CompatibleWithAll(locks: multiset<Lock>, m: LockType) returns (compatible: bool)
    ensures compatible <==> Fits(locks, m)
  {
    var rest := locks;
    while rest != multiset{}
      invariant rest <= locks
      invariant forall l :: l in locks && l !in rest ==> Compatible(l.mode, m)
      decreases |rest|
    {
      var lock :| lock in rest;
      if !IsCompatible(lock.mode, m) || !IsCompatible(m, lock.mode) {
        return false;
      }
      rest := rest - multiset{lock};
    }
    compatible := true;
  }

  method CompatibleWithOthers(locks: multiset<Lock>, t: TxnId, m: LockType) returns (compatible: bool)
    ensures compatible <==> FitsOthers(locks, t, m)
  {
    var rest := locks;
    while rest != multiset{}
      invariant rest <= locks
      invariant forall l :: l in locks && l !in rest && l.txn != t ==> Compatible(l.mode, m)
      decreases |rest|
    {
      var lock :| lock in rest;
      if lock.txn != t && (!IsCompatible(lock.mode, m) || !IsCompatible(m, lock.mode)) {
        return false;
      }
      rest := rest - multiset{lock};
    }
    compatible := true;
  }

  /** The first own lock in whatever order the set is visited. */
  method FindOwnLock(locks: multiset<Lock>, t: TxnId) returns (found: Option<LockType>)
    ensures match found
            case Some(h) => Lock(t, h) in locks
            case None => !Owns(locks, t)
  {
    var rest := locks;
    while rest != multiset{}
      invariant rest <= locks
      invariant forall l :: l in locks && l !in rest ==> l.txn != t
      decreases |rest|
    {
      var lock :| lock in rest;
      if lock.txn == t {
        return Some(lock.mode);
      }
      rest := rest - multiset{lock};
    }
    found := None;
  }

  method AlreadyWaiting(queue: seq<LockRequest>, t: TxnId) returns (waiting: bool)
    ensures waiting <==> Queued(queue, t)
  {
    for i := 0 to |queue|
      invariant !Queued(queue[..i], t)
    {
      if queue[i].txn == t {
        return true;
      }
      assert queue[..i + 1] == queue[..i] + [queue[i]];
    }
    assert queue[..|queue|] == queue;
    waiting := false;
  }

  /** Erase while iterating: every lock of `t` goes, nothing else does. */
  method EraseLocksOf(locks: multiset<Lock>, t: TxnId) returns (kept: multiset<Lock>, removed: bool)
    ensures kept == Drop(locks, t)
    ensures removed <==> Owns(locks, t)
  {
    kept, removed := locks, false;
    var rest := locks;
    while rest != multiset{}
      invariant rest <= locks
      invariant forall l :: kept[l] == if l.txn == t then rest[l] else locks[l]
      invariant removed ==> Owns(locks, t)
      invariant !removed ==> forall l :: l in locks && l !in rest ==> l.txn != t
      decreases |rest|
    {
      var lock :| lock in rest;
      rest := rest - multiset{lock};
      if lock.txn == t {
        kept, removed := kept - multiset{lock}, true;
        assert lock in locks;
      }
    }
  }

  /** Releasing one more resource after a set of others: the order of the visits does not matter. */
  lemma ReleaseOneMore(s: Table, t: TxnId, visited: set<ResId>, r: ResId)
    requires Inv(s) && t in s.completed
    requires visited + {r} <= HeldBy(s, t) && r !in visited
    ensures Inv(ReleaseAll(s, t, visited))
    ensures MayRelease(ReleaseAll(s, t, visited), t, r)
    ensures Apply(ReleaseAll(s, t, visited), Release(t, r)) == ReleaseAll(s, t, visited + {r})
  {
    ReleaseTwice(s, t, visited, r);
  }

  lemma NothingReleased(s: Table, t: TxnId)
    requires Inv(s)
    ensures ReleaseAll(s, t, {}) == s
  {
    hide ReleaseAll;
    ReleasingNothing(s, t);
  }

  lemma ReleasingNothing(s: Table, t: TxnId)
    requires NoEmptyEntries(s)
    ensures ReleaseAll(s, t, {}) == s
  {
    hide Admitted, LocksAfterRelease, QueueAfterRelease, LocksOn, QueueOn;
    var s' := ReleaseAll(s, t, {});
    assert s'.locks == s.locks && s'.queues == s.queues;
    assert Receivers(s, t, {}) == {};
    forall x ensures HeldAfterRelease(s, t, {}, x) == HeldBy(s, x) {
      assert HandedTo(s, t, {}, x) == {};
    }
    assert s'.held == s.held;
  }

  // ---------------------------------------------------------------- one more step of a plan

  lemma ClimbedSnoc(s: Table, t: TxnId, plan: seq<(ResId, LockType)>, steps: seq<Step>, step: Step)
    requires t !in s.completed && Climbed(s, t, plan, steps) && |steps| < |plan|
    requires Asks(step, t, plan[|steps|]) && Enabled(Run(s, steps), step)
    ensures Run(s, steps + [step]) == Apply(Run(s, steps), step)
    ensures if Granted(Run(s, steps), step) then Climbed(s, t, plan, steps + [step])
            else Serves(s, t, plan, steps + [step], false)
  {
    assert (steps + [step])[..|steps|] == steps;
  }

  type Index = map<TxnId, set<ResId>>

  ghost function Entry(h: Index, x: TxnId): set<ResId> {
    if x in h then h[x] else {}
  }

  /** `after` is `before` with `r` added for everybody in `granted`. */
  ghost predicate Handed(before: Index, after: Index, granted: seq<LockRequest>, r: ResId) {
    && (forall x :: Entry(after, x) == if Queued(granted, x) then Entry(before, x) + {r} else Entry(before, x))
    && (forall x :: x in after ==> x in before || after[x] != {})
    && (forall x :: x in before && before[x] != {} ==> x in after && after[x] != {})
  }

  lemma HandedSnoc(before: Index, after: Index, granted: seq<LockRequest>, request: LockRequest, r: ResId)
    requires Handed(before, after, granted, r)
    ensures Handed(before, after[request.txn := Entry(after, request.txn) + {r}], granted + [request], r)
  {
    var longer := granted + [request];
    assert longer[|granted|] == request;
    forall x ensures Queued(longer, x) <==> Queued(granted, x) || x == request.txn {
      assert forall i :: 0 <= i < |granted| ==> longer[i] == granted[i];
    }
  }

  /** What the wait-queue loop leaves on `r`, started from `before`. */
  ghost predicate Served(before: Table, after: Table, r: ResId) {
    var ls, q := LocksOn(before, r), QueueOn(before, r);
    var k := Admit(ls, q);
    && after.completed == before.completed && after.parent == before.parent
    && after.locks == before.locks[r := ls + multiset(q[..k])]
    && after.queues == (if r in before.queues then before.queues[r := q[k..]] else before.queues)
    && Handed(before.held, after.held, q[..k], r)
  }

  /** The wait-queue loop after `i` grants. */
  ghost predicate QueueLoop(ls: multiset<Lock>, q: seq<LockRequest>, i: nat,
                            locks: multiset<Lock>, queue: seq<LockRequest>) {
    && i <= |q| && queue == q[i..] && locks == ls + multiset(q[..i])
    && Admit(ls, q) == i + Admit(locks, queue)
  }

  lemma QueueLoopStarts(ls: multiset<Lock>, q: seq<LockRequest>)
    ensures QueueLoop(ls, q, 0, ls, q)
  {
    assert q[..0] == [] && q[0..] == q;
    assert ls + multiset(q[..0]) == ls;
  }

  lemma QueueLoopGrants(ls: multiset<Lock>, q: seq<LockRequest>, i: nat, locks: multiset<Lock>, queue: seq<LockRequest>)
    requires QueueLoop(ls, q, i, locks, queue) && queue != [] && Fits(locks, queue[0].mode)
    ensures i < |q| && QueueLoop(ls, q, i + 1, locks + multiset{queue[0]}, queue[1..])
    ensures q[..i + 1] == q[..i] + [queue[0]]
  {
    assert q[i..][1..] == q[i + 1..] && q[..i + 1] == q[..i] + [q[i]];
    assert ls + multiset(q[..i + 1]) == ls + multiset(q[..i]) + multiset{q[i]};
  }

  lemma QueueLoopEnds(ls: multiset<Lock>, q: seq<LockRequest>, i: nat, locks: multiset<Lock>, queue: seq<LockRequest>)
    requires QueueLoop(ls, q, i, locks, queue) && (queue == [] || !Fits(locks, queue[0].mode))
    ensures i == Admit(ls, q) && queue == q[i..] && locks == ls + multiset(q[..i])
  {
  }

  lemma HandedNothing(before: Index, q: seq<LockRequest>, r: ResId)
    ensures Handed(before, before, q[..0], r)
  {
  }

  /** Releasing leaves `after` on one resource: the loop's result, with empty entries erased. */
  lemma ServedViews(s: Table, dropped: Table, served: Table, after: Table, t: TxnId, r: ResId, o: ResId)
    requires LocksOn(dropped, r) == Drop(LocksOn(s, r), t) && QueueOn(dropped, r) == QueueOn(s, r)
    requires o != r ==> LocksOn(dropped, o) == LocksOn(s, o) && QueueOn(dropped, o) == QueueOn(s, o)
    requires Served(dropped, served, r)
    requires after == EraseEmpty(served, r)
    ensures LocksOn(after, o) == if o in {r} then LocksAfterRelease(s, t, o) else LocksOn(s, o)
    ensures QueueOn(after, o) == if o in {r} then QueueAfterRelease(s, t, o) else QueueOn(s, o)
  {
    hide Handed, Admit, Served;
    assert LocksOn(after, o) == LocksOn(served, o) && QueueOn(after, o) == QueueOn(served, o);
    ServedQueue(dropped, served, r, o);
  }

  /** The loop's result on `r`, and every other resource as it was. */
  lemma ServedQueue(before: Table, after: Table, r: ResId, o: ResId)
    requires Served(before, after, r)
    ensures var ls, q := LocksOn(before, o), QueueOn(before, o);
            if o == r then
              LocksOn(after, o) == ls + multiset(q[..Admit(ls, q)]) && QueueOn(after, o) == q[Admit(ls, q)..]
            else LocksOn(after, o) == ls && QueueOn(after, o) == q
  {
    hide Handed, Admit;
  }

  ghost function EraseEmpty(s: Table, r: ResId): Table {
    s.(locks := if LocksOn(s, r) == multiset{} then s.locks - {r} else s.locks,
       queues := if QueueOn(s, r) == [] then s.queues - {r} else s.queues)
  }

  ghost predicate IndexErased(before: Index, after: Index, t: TxnId, r: ResId) {
    && (forall x :: Entry(after, x) == if x == t then Entry(before, x) - {r} else Entry(before, x))
    && ((forall x :: x in before ==> before[x] != {}) ==> forall x :: x in after ==> after[x] != {})
  }

  /** releaseLock around the loop: the erased locks and index entry before it, the erased empty entries
      after it, make the loop's result a release. */
  lemma ServedIsReleased(s: Table, dropped: Table, served: Table, t: TxnId, r: ResId)
    requires Inv(s) && r in s.locks && t in s.completed
    requires dropped == s.(locks := s.locks[r := Drop(LocksOn(s, r), t)], held := dropped.held)
    requires IndexErased(s.held, dropped.held, t, r)
    requires Served(dropped, served, r)
    ensures EraseEmpty(served, r) == ReleaseAll(s, t, {r})
  {
    hide ReleaseAll, Served, EraseEmpty, IndexAgrees, ResourceSafe, Drop;
    ServedHasNoEmptyEntries(s, dropped, served, r);
    var after := EraseEmpty(served, r);
    assert LocksOn(dropped, r) == Drop(LocksOn(s, r), t) && QueueOn(dropped, r) == QueueOn(s, r);
    assert forall o :: o != r ==> LocksOn(dropped, o) == LocksOn(s, o) && QueueOn(dropped, o) == QueueOn(s, o);
    ServedAllViews(s, dropped, served, after, t, r);
    ReleasedIsUnique(s, after, t, r);
  }

  lemma ServedAllViews(s: Table, dropped: Table, served: Table, after: Table, t: TxnId, r: ResId)
    requires LocksOn(dropped, r) == Drop(LocksOn(s, r), t) && QueueOn(dropped, r) == QueueOn(s, r)
    requires forall o :: o != r ==> LocksOn(dropped, o) == LocksOn(s, o) && QueueOn(dropped, o) == QueueOn(s, o)
    requires dropped.completed == s.completed && dropped.parent == s.parent
    requires IndexErased(s.held, dropped.held, t, r)
    requires Served(dropped, served, r) && after == EraseEmpty(served, r)
    ensures Released(s, after, t, {r})
  {
    forall o ensures LocksOn(after, o) == (if o in {r} then LocksAfterRelease(s, t, o) else LocksOn(s, o))
             ensures QueueOn(after, o) == (if o in {r} then QueueAfterRelease(s, t, o) else QueueOn(s, o)) {
      ServedViews(s, dropped, served, after, t, r, o);
    }
    ServedAllIndex(s, dropped, served, after, t, r);
  }

  lemma ServedAllIndex(s: Table, dropped: Table, served: Table, after: Table, t: TxnId, r: ResId)
    requires LocksOn(dropped, r) == Drop(LocksOn(s, r), t) && QueueOn(dropped, r) == QueueOn(s, r)
    requires IndexErased(s.held, dropped.held, t, r)
    requires Served(dropped, served, r) && after.held == served.held
    ensures forall x :: HeldBy(after, x) == HeldAfterRelease(s, t, {r}, x)
  {
    forall x ensures HeldBy(after, x) == HeldAfterRelease(s, t, {r}, x) {
      assert Entry(s.held, x) == HeldBy(s, x) && Entry(dropped.held, x) == HeldBy(dropped, x);
      ServedIndex(s, dropped, served, t, r, x);
      assert HeldBy(after, x) == HeldBy(served, x);
    }
  }

  lemma ServedHasNoEmptyEntries(s: Table, dropped: Table, served: Table, r: ResId)
    requires NoEmptyEntries(s)
    requires dropped.locks - {r} == s.locks - {r} && dropped.queues == s.queues
    requires forall x :: x in dropped.held ==> dropped.held[x] != {}
    requires Served(dropped, served, r)
    ensures NoEmptyEntries(EraseEmpty(served, r))
  {
    hide Admit, Handed;
    ServedIndexIsNotEmpty(dropped, served, r);
    var after := EraseEmpty(served, r);
    forall o | o in after.locks ensures after.locks[o] != multiset{} {
      if o != r {
        assert o in dropped.locks - {r};
      }
    }
  }

  lemma ServedIndexIsNotEmpty(before: Table, after: Table, r: ResId)
    requires Served(before, after, r) && forall x :: x in before.held ==> before.held[x] != {}
    ensures forall x :: x in after.held ==> after.held[x] != {}
  {
    hide Admit;
  }

  lemma ReleasedIsUnique(s: Table, after: Table, t: TxnId, r: ResId)
    requires Inv(s) && r in s.locks && t in s.completed
    requires Released(s, after, t, {r}) && NoEmptyEntries(after)
    ensures after == ReleaseAll(s, t, {r})
  {
    ReleaseAllReleases(s, t, {r});
    ReleaseAllKeepsInv(s, t, {r});
    assert SameViews(after, ReleaseAll(s, t, {r}));
    SameViewsSameTable(after, ReleaseAll(s, t, {r}));
  }

  lemma ServedIndex(s: Table, dropped: Table, served: Table, t: TxnId, r: ResId, x: TxnId)
    requires LocksOn(dropped, r) == Drop(LocksOn(s, r), t) && QueueOn(dropped, r) == QueueOn(s, r)
    requires HeldBy(dropped, x) == if x == t then HeldBy(s, x) - {r} else HeldBy(s, x)
    requires Served(dropped, served, r)
    ensures HeldBy(served, x) == HeldAfterRelease(s, t, {r}, x)
  {
    assert HandedTo(s, t, {r}, x) == if Queued(Admitted(s, t, r), x) then {r} else {};
    assert Entry(served.held, x) == HeldBy(served, x) && Entry(dropped.held, x) == HeldBy(dropped, x);
  }

  // ---------------------------------------------------------------- the manager

  class LockManager {
    var resourceLocks: map<ResId, multiset<Lock>>
    var waitQueues: map<ResId, seq<LockRequest>>
    var txnLocks: map<TxnId, set<ResId>>
    var completed: set<TxnId>
    var resourceParent: map<ResId, ResId>

    ghost function View(): Table
      reads this
    {
      Table(resourceLocks, waitQueues, txnLocks, completed, resourceParent)
    }

    ghost predicate Valid()
      reads this
    {
      Inv(View())
    }

    constructor ()
      ensures Valid() && View() == EMPTY
    {
      resourceLocks, waitQueues, txnLocks, completed, resourceParent := map[], map[], map[], {}, map[];
    }

    method SetResourceParent(child: ResId, parent: ResId)
      requires Valid()
      modifies this
      ensures Valid() && View() == Apply(old(View()), SetParent(child, parent))
    {
      StepKeepsInv(View(), SetParent(child, parent));
      resourceParent := resourceParent[child := parent];
    }

    method HasLock(t: TxnId, r: ResId) returns (has: bool)
      ensures has <==> Holds(View(), t, r)
    {
      if r in resourceLocks {
        var found := FindOwnLock(resourceLocks[r], t);
        has := found.Some?;
      } else {
        has := false;
      }
    }

    method IndexLock(t: TxnId, r: ResId)
      modifies this`txnLocks
      ensures txnLocks == old(txnLocks)[t := Entry(old(txnLocks), t) + {r}]
    {
      var held := if t in txnLocks then txnLocks[t] else {};
      txnLocks := txnLocks[t := held + {r}];
    }

    method Wait(t: TxnId, r: ResId, m: LockType) returns (ghost change: Change)
      modifies this`waitQueues
      ensures Answer(change, false) == Refuse(QueueOn(old(View()), r), t, m)
      ensures View() == Update(old(View()), t, r, change)
    {
      var queue := if r in waitQueues then waitQueues[r] else [];
      var waiting := AlreadyWaiting(queue, t);
      change := Same;
      if !waiting {
        waitQueues := waitQueues[r := queue + [Lock(t, m)]];
        change := Waits(m);
      }
    }

    method GrantLock(t: TxnId, r: ResId, m: LockType)
      modifies this`resourceLocks, this`txnLocks
      ensures View() == Grant(old(View()), t, r, m)
    {
      var locks := if r in resourceLocks then resourceLocks[r] else multiset{};
      resourceLocks := resourceLocks[r := locks + multiset{Lock(t, m)}];
      IndexLock(t, r);
    }

    method ReplaceLock(t: TxnId, r: ResId, h: LockType, m: LockType)
      modifies this`resourceLocks, this`txnLocks
      ensures View() == Replace(old(View()), t, r, h, m)
    {
      var locks := if r in resourceLocks then resourceLocks[r] else multiset{};
      assert locks == LocksOn(View(), r) && Entry(txnLocks, t) == HeldBy(View(), t);
      hide LocksOn, HeldBy, Entry;
      resourceLocks := resourceLocks[r := locks - multiset{Lock(t, h)} + multiset{Lock(t, m)}];
      IndexLock(t, r);
    }

    method RequestLockOnResource(t: TxnId, r: ResId, m: LockType) returns (granted: bool, ghost step: Step)
      requires Valid()
      modifies this
      ensures Asks(step, t, (r, m)) && Enabled(old(View()), step)
      ensures granted == Granted(old(View()), step)
      ensures Valid() && View() == Apply(old(View()), step)
    {
      hide Inv, Apply, Fits, FitsOthers, Owns;
      ghost var s := View();
      step := Request(t, r, m, None);
      if t in completed {
        RequestIsGuarded(s, step);
        return false, step;
      }
      var locks := if r in resourceLocks then resourceLocks[r] else multiset{};
      var found := FindOwnLock(locks, t);
      step := Request(t, r, m, found);
      RequestIsGuarded(s, step);
      UpdateKeepsInv(s, t, r, RequestChange(s, step));
      if found.Some? {
        if found.value == m || found.value == EXCLUSIVE {
          return true, step;
        }
        var compatible := CompatibleWithOthers(locks, t, m);
        if compatible {
          ReplaceLock(t, r, found.value, m);
          return true, step;
        }
      } else {
        var compatible := CompatibleWithAll(locks, m);
        if compatible {
          GrantLock(t, r, m);
          return true, step;
        }
      }
      ghost var change := Wait(t, r, m);
      granted := false;
    }

    /** The ancestor loop: nearest first, ending at a root or at a parent met before. */
    method CollectAncestors(r: ResId) returns (ancestors: seq<ResId>)
      ensures ancestors == Climb(resourceParent, r, {})
    {
      var seen: set<ResId>, at := {}, r;
      ancestors := [];
      while at in resourceParent && resourceParent[at] !in seen
        invariant ancestors + Climb(resourceParent, at, seen) == Climb(resourceParent, r, {})
        decreases resourceParent.Values - seen
      {
        var parent := resourceParent[at];
        ghost var rest := Climb(resourceParent, parent, seen + {parent});
        assert ancestors + ([parent] + rest) == (ancestors + [parent]) + rest;
        ancestors, seen, at := ancestors + [parent], seen + {parent}, parent;
      }
    }

    /** Intention locks on the ancestors from the root down, until one is refused. */
    method EnsureAncestorIntentionLocks(t: TxnId, r: ResId, requested: LockType)
        returns (ok: bool, ghost steps: seq<Step>)
      requires Valid() && t !in completed
      modifies this
      ensures Valid() && View() == Run(old(View()), steps)
      ensures var plan := Plan(old(resourceParent), r, requested);
              if ok then Climbed(old(View()), t, plan, steps) && |steps| == |plan| - 1
              else Serves(old(View()), t, plan, steps, false) && |steps| < |plan|
      ensures Acyclic(old(resourceParent)) && requested in {SHARED, INTENTION_SHARED} ==>
                (ok <==> !OthersHoldAbove(old(View()), t, r, {EXCLUSIVE}))
      ensures Acyclic(old(resourceParent)) && requested in {EXCLUSIVE, INTENTION_EXCLUSIVE} ==>
                (ok <==> !OthersHoldAbove(old(View()), t, r, {EXCLUSIVE, SHARED}))
    {
      hide Inv, Apply, Enabled, Granted, Climb, Acyclic, OthersHoldAbove;
      var intention := AncestorIntention(requested);
      steps := [];
      if intention == NONE {
        return true, steps;
      }
      var ancestors := CollectAncestors(r);
      ghost var s := View();
      ghost var plan := Plan(resourceParent, r, requested);
      for k := 0 to |ancestors|
        invariant |steps| == k && |plan| == |ancestors| + 1
        invariant Climbed(s, t, plan, steps)
        invariant Valid() && View() == Run(s, steps)
      {
        var granted, step := RequestLockOnResource(t, ancestors[|ancestors| - 1 - k], intention);
        ClimbedSnoc(s, t, plan, steps, step);
        steps := steps + [step];
        if !granted {
          if Acyclic(s.parent) {
            AncestorsAnswer(s, t, r, requested, steps, false);
          }
          return false, steps;
        }
      }
      ok := true;
      if Acyclic(s.parent) {
        AncestorsAnswer(s, t, r, requested, steps, ok);
      }
    }

    /** requestLock for a transaction that is not completed: the ancestors first, then the resource itself. */
    method RequestAncestorsFirst(t: TxnId, r: ResId, m: LockType) returns (granted: bool, ghost steps: seq<Step>)
      requires Valid() && t !in completed
      modifies this
      ensures Valid() && View() == Run(old(View()), steps)
      ensures Serves(old(View()), t, Plan(old(resourceParent), r, m), steps, granted)
    {
      ghost var s := View();
      ghost var plan := Plan(resourceParent, r, m);
      var ok;
      ok, steps := EnsureAncestorIntentionLocks(t, r, m);
      if !ok {
        return false, steps;
      }
      ghost var step;
      granted, step := RequestLockOnResource(t, r, m);
      ClimbedSnoc(s, t, plan, steps, step);
      steps := steps + [step];
    }

    method RequestLock(t: TxnId, r: ResId, m: LockType) returns (granted: bool, ghost steps: seq<Step>)
      requires Valid()
      modifies this
      ensures Valid() && View() == Run(old(View()), steps)
      ensures Serves(old(View()), t, Plan(old(resourceParent), r, m), steps, granted)
      ensures Acyclic(old(resourceParent)) && m == SHARED ==>
                (granted <==>
                  && t !in old(completed)
                  && !OthersHold(old(View()), t, r, {EXCLUSIVE, INTENTION_EXCLUSIVE})
                  && !OthersHoldAbove(old(View()), t, r, {EXCLUSIVE}))
      ensures Acyclic(old(resourceParent)) && m == EXCLUSIVE ==>
                (granted <==>
                  && t !in old(completed)
                  && (forall l :: l in LocksOn(old(View()), r) ==> l.txn == t)
                  && !OthersHoldAbove(old(View()), t, r, {EXCLUSIVE, SHARED}))
    {
      hide Inv, Apply, Enabled, Granted, Plan, Acyclic, OthersHold, OthersHoldAbove;
      steps, granted := [], false;
      ghost var s := View();
      if t !in completed {
        granted, steps := RequestAncestorsFirst(t, r, m);
      }
      if Acyclic(s.parent) {
        AnswerByMode(s, t, r, m, steps, granted);
      }
    }

    /** Grants from the front of the queue while the front is compatible with everything held. */
    method ProcessWaitQueue(r: ResId)
      requires r in resourceLocks
      modifies this`resourceLocks, this`waitQueues, this`txnLocks
      ensures Served(old(View()), View(), r)
    {
      hide Fits, QueueLoop, Handed, Admit;
      ghost var ls, q := resourceLocks[r], if r in waitQueues then waitQueues[r] else [];
      QueueLoopStarts(ls, q);
      HandedNothing(txnLocks, q, r);
      if r !in waitQueues {
        QueueLoopEnds(ls, q, 0, ls, q);
        assert resourceLocks[r := ls] == resourceLocks;
        return;
      }
      var locks, queue := resourceLocks[r], waitQueues[r];
      ghost var i := 0;
      while queue != []
        invariant i <= |q| && QueueLoop(ls, q, i, locks, queue)
        invariant Handed(old(txnLocks), txnLocks, q[..i], r)
        invariant resourceLocks == old(resourceLocks) && waitQueues == old(waitQueues)
        decreases |queue|
      {
        var request := queue[0];
        var compatible := CompatibleWithAll(locks, request.mode);
        if !compatible {
          break;
        }
        QueueLoopGrants(ls, q, i, locks, queue);
        HandedSnoc(old(txnLocks), txnLocks, q[..i], request, r);
        locks := locks + multiset{request};
        IndexLock(request.txn, r);
        queue := queue[1..];
        i := i + 1;
      }
      QueueLoopEnds(ls, q, i, locks, queue);
      resourceLocks, waitQueues := resourceLocks[r := locks], waitQueues[r := queue];
    }

    method DropLocks(t: TxnId, r: ResId) returns (removed: bool)
      requires r in resourceLocks
      modifies this`resourceLocks
      ensures removed <==> Holds(old(View()), t, r)
      ensures removed ==> resourceLocks == old(resourceLocks)[r := Drop(LocksOn(old(View()), r), t)]
      ensures !removed ==> resourceLocks == old(resourceLocks)
    {
      var kept;
      kept, removed := EraseLocksOf(resourceLocks[r], t);
      if removed {
        resourceLocks := resourceLocks[r := kept];
      }
    }

    method EraseIndex(t: TxnId, r: ResId)
      modifies this`txnLocks
      ensures IndexErased(old(txnLocks), txnLocks, t, r)
    {
      if t in txnLocks {
        txnLocks := txnLocks[t := txnLocks[t] - {r}];
        if txnLocks[t] == {} {
          txnLocks := txnLocks - {t};
        }
      }
    }

    method EraseEmptyEntries(r: ResId)
      modifies this`resourceLocks, this`waitQueues
      ensures View() == EraseEmpty(old(View()), r)
    {
      if r in resourceLocks && resourceLocks[r] == multiset{} {
        resourceLocks := resourceLocks - {r};
      }
      if r in waitQueues && waitQueues[r] == [] {
        waitQueues := waitQueues - {r};
      }
      assert r !in resourceLocks ==> resourceLocks - {r} == resourceLocks;
      assert r !in waitQueues ==> waitQueues - {r} == waitQueues;
    }

    /** The rest of releaseLock once the locks of `t` on `r` are erased from the state `s`. */
    method FinishRelease(t: TxnId, r: ResId, ghost s: Table)
      requires Inv(s) && r in s.locks && t in s.completed
      requires View() == s.(locks := s.locks[r := Drop(s.locks[r], t)])
      modifies this`resourceLocks, this`waitQueues, this`txnLocks
      ensures View() == ReleaseAll(s, t, {r})
    {
      EraseIndex(t, r);
      ghost var dropped := View();
      ProcessWaitQueue(r);
      ServedIsReleased(s, dropped, View(), t, r);
      EraseEmptyEntries(r);
    }

    method ReleaseLock(t: TxnId, r: ResId) returns (released: bool)
      requires Valid()
      modifies this
      ensures released <==> MayRelease(old(View()), t, r)
      ensures Valid() && View() == Apply(old(View()), Release(t, r))
    {
      ghost var s := View();
      StepKeepsInv(s, Release(t, r));
      if t !in completed || r !in resourceLocks {
        return false;
      }
      released := DropLocks(t, r);
      if released {
        FinishRelease(t, r, s);
      }
    }

    /** The release loop of completeTransaction, in whatever order the set is visited. */
    method ReleaseHeld(t: TxnId, held: set<ResId>) returns (releasedAny: bool)
      requires Valid() && t in completed && held == HeldBy(View(), t)
      modifies this
      ensures Valid() && View() == ReleaseAll(old(View()), t, held)
      ensures held != {} ==> releasedAny
    {
      hide Inv, Apply, ReleaseAll, MayRelease;
      ghost var marked := View();
      var rest: set<ResId>;
      rest, releasedAny := held, false;
      NothingReleased(marked, t);
      assert held - rest == {};
      while rest != {}
        invariant rest <= held
        invariant Valid() && View() == ReleaseAll(marked, t, held - rest)
        invariant rest < held ==> releasedAny
        decreases rest
      {
        var r :| r in rest;
        ReleaseOneMore(marked, t, held - rest, r);
        var released := ReleaseLock(t, r);
        releasedAny := releasedAny || released;
        assert held - rest + {r} == held - (rest - {r});
        rest := rest - {r};
      }
      assert held - rest == held;
    }

    method CompleteTransaction(t: TxnId) returns (ok: bool)
      requires Valid()
      modifies this
      ensures ok
      ensures Valid() && View() == Apply(old(View()), Complete(t))
    {
      ghost var s := View();
      CompleteKeepsInv(s, t);
      completed := completed + {t};
      if t !in txnLocks {
        return true;
      }
      SameViewKeepsInv(s, View());
      ok := ReleaseHeld(t, txnLocks[t]);
      txnLocks := txnLocks - {t};
    }
  }
}
