/** What every step of the lock manager keeps, and what that gives for whole runs. */
module LockSafety {
  import opened Ids
  import opened LockModes
  import opened LockTable
  import opened Wrappers

  // ---------------------------------------------------------------- the invariant

  ghost predicate PairwiseCompatible(ls: multiset<Lock>) {
    forall a, b :: a in ls && b in ls && a.txn != b.txn ==> Compatible(a.mode, b.mode)
  }

  ghost predicate OneRequestEach(q: seq<LockRequest>) {
    forall i, j :: 0 <= i < j < |q| ==> q[i].txn != q[j].txn
  }

  ghost predicate NoEmptyEntries(s: Table) {
    && (forall r :: r in s.locks ==> s.locks[r] != multiset{})
    && (forall r :: r in s.queues ==> s.queues[r] != [])
    && (forall t :: t in s.held ==> s.held[t] != {})
  }

  /** The index by transaction never names a resource the transaction does not hold, and names all of
      them while the transaction is not completed. */
  ghost predicate IndexAt(s: Table, t: TxnId, r: ResId) {
    && (r in HeldBy(s, t) ==> Holds(s, t, r))
    && (Holds(s, t, r) && t !in s.completed ==> r in HeldBy(s, t))
  }

  ghost predicate IndexAgrees(s: Table) {
    forall t, r :: IndexAt(s, t, r)
  }

  /** One resource: locks of different transactions are compatible, nobody waits twice, and nobody
      waits where nothing is held. */
  ghost predicate ResourceSafe(ls: multiset<Lock>, q: seq<LockRequest>) {
    && PairwiseCompatible(ls)
    && OneRequestEach(q)
    && (q != [] ==> ls != multiset{})
  }

  ghost predicate Inv(s: Table) {
    && NoEmptyEntries(s)
    && IndexAgrees(s)
    && (forall r :: ResourceSafe(LocksOn(s, r), QueueOn(s, r)))
  }

  // ---------------------------------------------------------------- requests

  lemma OwnersAfterAdding(ls: multiset<Lock>, l: Lock, x: TxnId)
    ensures Owns(ls + multiset{l}, x) <==> x == l.txn || Owns(ls, x)
  {
    var more := ls + multiset{l};
    assert l in more;
    assert forall o :: o in ls ==> o in more;
  }

  lemma CompatibleAfterAdding(ls: multiset<Lock>, l: Lock)
    requires PairwiseCompatible(ls) && FitsOthers(ls, l.txn, l.mode)
    ensures PairwiseCompatible(ls + multiset{l})
  {
  }

  lemma GrantKeepsInv(s: Table, t: TxnId, r: ResId, m: LockType)
    requires Inv(s) && Fits(LocksOn(s, r), m)
    ensures Inv(Grant(s, t, r, m))
  {
    var s' := Grant(s, t, r, m);
    assert ResourceSafe(LocksOn(s, r), QueueOn(s, r));
    CompatibleAfterAdding(LocksOn(s, r), Lock(t, m));
    RequestFrame(s, s', t, r, Lock(t, m), LocksOn(s, r));
  }

  /** The common part of a new grant and a replacement: `ls` are the locks on `r` the new lock joins. */
  lemma RequestFrame(s: Table, s': Table, t: TxnId, r: ResId, l: Lock, ls: multiset<Lock>)
    requires Inv(s) && l.txn == t
    requires s' == s.(locks := s.locks[r := ls + multiset{l}], held := s.held[t := HeldBy(s, t) + {r}])
    requires forall x :: x != t ==> (Owns(ls, x) <==> Holds(s, x, r))
    requires PairwiseCompatible(ls + multiset{l})
    ensures Inv(s')
  {
    forall q ensures ResourceSafe(LocksOn(s', q), QueueOn(s', q)) {
      assert ResourceSafe(LocksOn(s, q), QueueOn(s, q));
      assert l in ls + multiset{l};
    }
    forall x, q ensures IndexAt(s', x, q) {
      RequestFrameIndex(s, s', t, r, l, ls, x, q);
    }
  }

  lemma RequestFrameIndex(s: Table, s': Table, t: TxnId, r: ResId, l: Lock, ls: multiset<Lock>, x: TxnId, q: ResId)
    requires IndexAt(s, x, q) && l.txn == t
    requires s' == s.(locks := s.locks[r := ls + multiset{l}], held := s.held[t := HeldBy(s, t) + {r}])
    requires x != t ==> (Owns(ls, x) <==> Holds(s, x, r))
    ensures IndexAt(s', x, q)
  {
    if q == r {
      OwnersAfterAdding(ls, l, x);
    } else {
      assert LocksOn(s', q) == LocksOn(s, q);
    }
  }

  lemma ReplaceKeepsInv(s: Table, t: TxnId, r: ResId, h: LockType, m: LockType)
    requires Inv(s) && Lock(t, h) in LocksOn(s, r) && FitsOthers(LocksOn(s, r), t, m)
    ensures Inv(Replace(s, t, r, h, m))
  {
    var ls := LocksOn(s, r) - multiset{Lock(t, h)};
    assert ResourceSafe(LocksOn(s, r), QueueOn(s, r));
    assert forall l :: l in ls ==> l in LocksOn(s, r);
    CompatibleAfterAdding(ls, Lock(t, m));
    forall x | x != t ensures Owns(ls, x) <==> Owns(LocksOn(s, r), x) {
      assert forall l: Lock :: l.txn == x ==> (l in ls <==> l in LocksOn(s, r));
    }
    RequestFrame(s, Replace(s, t, r, h, m), t, r, Lock(t, m), ls);
  }

  lemma EnqueueKeepsInv(s: Table, t: TxnId, r: ResId, m: LockType)
    requires Inv(s) && LocksOn(s, r) != multiset{} && !Queued(QueueOn(s, r), t)
    ensures Inv(Enqueue(s, t, r, m))
  {
    var s' := Enqueue(s, t, r, m);
    forall q ensures ResourceSafe(LocksOn(s', q), QueueOn(s', q)) {
      assert ResourceSafe(LocksOn(s, q), QueueOn(s, q));
      assert q == r || QueueOn(s', q) == QueueOn(s, q);
    }
    forall x, q ensures IndexAt(s', x, q) {
      assert IndexAt(s, x, q);
    }
  }

  /** When the code makes each change. */
  ghost predicate Guarded(ls: multiset<Lock>, q: seq<LockRequest>, t: TxnId, c: Change) {
    match c
    case Added(m) => !Owns(ls, t) && Fits(ls, m)
    case Swapped(h, m) => Lock(t, h) in ls && h != EXCLUSIVE && h != m && FitsOthers(ls, t, m)
    case Waits(m) => !Queued(q, t) && !Fits(ls, m)
    case _ => true
  }

  lemma DecideIsGuarded(ls: multiset<Lock>, q: seq<LockRequest>, t: TxnId, m: LockType, found: Option<LockType>)
    requires if found.Some? then Lock(t, found.value) in ls else !Owns(ls, t)
    ensures Guarded(ls, q, t, Decide(ls, q, t, m, found).change)
    ensures !Decide(ls, q, t, m, found).change.Refilled?
  {
    assert Fits(ls, m) ==> FitsOthers(ls, t, m);
  }

  lemma UpdateKeepsInv(s: Table, t: TxnId, r: ResId, c: Change)
    requires Inv(s) && Guarded(LocksOn(s, r), QueueOn(s, r), t, c)
    ensures Inv(Update(s, t, r, c))
  {
    match c
    case Added(m) => GrantKeepsInv(s, t, r, m);
    case Swapped(h, m) => ReplaceKeepsInv(s, t, r, h, m);
    case Waits(m) => EnqueueKeepsInv(s, t, r, m);
    case _ =>
  }

  /** The change a request step makes. */
  ghost function RequestChange(s: Table, step: Step): Change
    requires step.Request?
  {
    RequestOn(s, step.txn, step.res, step.mode, step.found).change
  }

  lemma RequestIsGuarded(s: Table, step: Step)
    requires step.Request? && Enabled(s, step)
    ensures Guarded(LocksOn(s, step.res), QueueOn(s, step.res), step.txn, RequestChange(s, step))
    ensures !RequestChange(s, step).Refilled?
    ensures Apply(s, step) == Update(s, step.txn, step.res, RequestChange(s, step))
  {
    if step.txn !in s.completed {
      DecideIsGuarded(LocksOn(s, step.res), QueueOn(s, step.res), step.txn, step.mode, step.found);
    }
  }

  // ---------------------------------------------------------------- the answer of a request

  /** A lock of another transaction is incompatible with mode `m` for `t`. */
  ghost predicate Obstructed(s: Table, t: TxnId, r: ResId, m: LockType) {
    !FitsOthers(LocksOn(s, r), t, m)
  }

  /** A request is granted exactly when no other transaction's lock is in its way: not by the mode held, not
      by which own lock the scan meets first. */
  lemma RequestGrantedIff(s: Table, step: Step)
    requires Inv(s) && step.Request? && Enabled(s, step) && step.txn !in s.completed
    ensures Granted(s, step) <==> !Obstructed(s, step.txn, step.res, step.mode)
  {
    var ls := LocksOn(s, step.res);
    assert ResourceSafe(ls, QueueOn(s, step.res));
    if step.found.Some? {
      assert Lock(step.txn, step.found.value) in ls;
    }
  }

  // ---------------------------------------------------------------- releases

  lemma {:induction false} AdmitKeepsCompatible(ls: multiset<Lock>, q: seq<LockRequest>)
    requires PairwiseCompatible(ls)
    ensures PairwiseCompatible(ls + multiset(q[..Admit(ls, q)]))
    decreases |q|
  {
    var k := Admit(ls, q);
    if k == 0 {
      assert ls + multiset(q[..0]) == ls;
    } else {
      AdmitKeepsCompatible(ls + multiset{q[0]}, q[1..]);
      assert q[..k] == [q[0]] + q[1..][..k - 1];
      assert ls + multiset(q[..k]) == ls + multiset{q[0]} + multiset(q[1..][..k - 1]);
    }
  }

  /** Who owns `r` after it is released: everyone else who did, and everyone admitted. */
  lemma OwnersAfterRelease(s: Table, t: TxnId, r: ResId, x: TxnId)
    ensures Owns(LocksAfterRelease(s, t, r), x)
       <==> (x != t && Owns(LocksOn(s, r), x)) || Queued(Admitted(s, t, r), x)
  {
    var ls := Drop(LocksOn(s, r), t);
    var q := Admitted(s, t, r);
    if x != t && Owns(LocksOn(s, r), x) {
      var l :| l in LocksOn(s, r) && l.txn == x;
      assert l in ls;
      assert l in LocksAfterRelease(s, t, r);
    }
    if Queued(q, x) {
      var i :| 0 <= i < |q| && q[i].txn == x;
      assert q[i] in multiset(q);
      assert q[i] in LocksAfterRelease(s, t, r);
    }
    if Owns(LocksAfterRelease(s, t, r), x) {
      var l :| l in LocksAfterRelease(s, t, r) && l.txn == x;
      if l in ls {
        assert l in LocksOn(s, r);
      } else {
        assert l in multiset(q);
        assert l in q;
      }
    }
  }

  /** A release leaves the head of a surviving queue in conflict with a lock that is held. */
  lemma ReleaseBlocksHead(s: Table, t: TxnId, r: ResId)
    ensures var q := QueueAfterRelease(s, t, r);
            q != [] ==> !Fits(LocksAfterRelease(s, t, r), q[0].mode)
  {
    AdmitIsMaximalPrefix(Drop(LocksOn(s, r), t), QueueOn(s, r));
  }

  lemma ResourceAfterReleaseAll(s: Table, t: TxnId, rs: set<ResId>, r: ResId)
    requires NoEmptyEntries(s) && (r in rs ==> r in s.locks)
    ensures LocksOn(ReleaseAll(s, t, rs), r) == if r in rs then LocksAfterRelease(s, t, r) else LocksOn(s, r)
    ensures QueueOn(ReleaseAll(s, t, rs), r) == if r in rs then QueueAfterRelease(s, t, r) else QueueOn(s, r)
  {
  }

  lemma HeldByAfterReleaseAll(s: Table, t: TxnId, rs: set<ResId>, x: TxnId)
    ensures HeldBy(ReleaseAll(s, t, rs), x) == HeldAfterRelease(s, t, rs, x)
  {
    if x !in s.held.Keys + Receivers(s, t, rs) {
      forall r | r in rs ensures !Queued(Admitted(s, t, r), x) {
        var q := Admitted(s, t, r);
        assert forall i :: 0 <= i < |q| ==> q[i].txn in Receivers(s, t, rs);
      }
      assert HeldAfterRelease(s, t, rs, x) == {};
    }
  }

  lemma ResourceSafeAfterRelease(s: Table, t: TxnId, r: ResId)
    requires ResourceSafe(LocksOn(s, r), QueueOn(s, r))
    ensures ResourceSafe(LocksAfterRelease(s, t, r), QueueAfterRelease(s, t, r))
  {
    assert PairwiseCompatible(Drop(LocksOn(s, r), t));
    AdmitKeepsCompatible(Drop(LocksOn(s, r), t), QueueOn(s, r));
    ReleaseBlocksHead(s, t, r);
  }

  lemma ReleaseAllKeepsInv(s: Table, t: TxnId, rs: set<ResId>)
    requires Inv(s) && t in s.completed && rs <= s.locks.Keys
    ensures Inv(ReleaseAll(s, t, rs))
  {
    var s' := ReleaseAll(s, t, rs);
    forall r ensures ResourceSafe(LocksOn(s', r), QueueOn(s', r)) {
      assert ResourceSafe(LocksOn(s, r), QueueOn(s, r));
      ResourceAfterReleaseAll(s, t, rs, r);
      ResourceSafeAfterRelease(s, t, r);
    }
    assert IndexAgrees(s') by { ReleaseAllKeepsIndex(s, t, rs); }
  }

  lemma ReleaseAllKeepsIndex(s: Table, t: TxnId, rs: set<ResId>)
    requires Inv(s) && t in s.completed && rs <= s.locks.Keys
    ensures IndexAgrees(ReleaseAll(s, t, rs))
  {
    var s' := ReleaseAll(s, t, rs);
    forall x, r ensures IndexAt(s', x, r) {
      ResourceAfterReleaseAll(s, t, rs, r);
      HeldByAfterReleaseAll(s, t, rs, x);
      OwnersAfterRelease(s, t, r, x);
      assert IndexAt(s, x, r);
    }
  }

  lemma StepKeepsInv(s: Table, step: Step)
    requires Inv(s) && Enabled(s, step)
    ensures Inv(Apply(s, step))
  {
    match step
    case SetParent(c, p) =>
      SameViewKeepsInv(s, Apply(s, step));
    case Request(t, r, m, found) =>
      RequestIsGuarded(s, step);
      UpdateKeepsInv(s, t, r, RequestChange(s, step));
    case Release(t, r) =>
      if MayRelease(s, t, r) {
        ReleaseAllKeepsInv(s, t, {r});
      }
    case Complete(t) => CompleteKeepsInv(s, t);
  }

  lemma SameViewKeepsInv(s: Table, s': Table)
    requires Inv(s)
    requires s'.locks == s.locks && s'.queues == s.queues && s'.held == s.held && s.completed <= s'.completed
    ensures Inv(s')
  {
    forall r ensures LocksOn(s', r) == LocksOn(s, r) && QueueOn(s', r) == QueueOn(s, r)
             ensures ResourceSafe(LocksOn(s', r), QueueOn(s', r)) {
      assert ResourceSafe(LocksOn(s, r), QueueOn(s, r));
    }
    forall x, r ensures IndexAt(s', x, r) {
      assert IndexAt(s, x, r);
    }
  }

  lemma ForgetKeepsInv(s: Table, t: TxnId)
    requires Inv(s) && t in s.completed
    ensures Inv(Forget(s, t))
  {
    var s' := Forget(s, t);
    assert forall r :: LocksOn(s', r) == LocksOn(s, r) && QueueOn(s', r) == QueueOn(s, r);
    forall x, r ensures IndexAt(s', x, r) {
      assert IndexAt(s, x, r);
    }
    forall r ensures ResourceSafe(LocksOn(s', r), QueueOn(s', r)) {
      assert ResourceSafe(LocksOn(s, r), QueueOn(s, r));
    }
  }

  /** What the index says about a transaction is really locked. */
  lemma HeldIsLocked(s: Table, t: TxnId)
    requires Inv(s)
    ensures HeldBy(s, t) <= s.locks.Keys
  {
    forall r | r in HeldBy(s, t) ensures r in s.locks {
      assert IndexAt(s, t, r);
    }
  }

  lemma CompleteKeepsInv(s: Table, t: TxnId)
    requires Inv(s)
    ensures Inv(Apply(s, Complete(t)))
  {
    var marked := s.(completed := s.completed + {t});
    SameViewKeepsInv(s, marked);
    if t in s.held {
      HeldIsLocked(s, t);
      ReleaseAllKeepsInv(marked, t, s.held[t]);
      ForgetKeepsInv(ReleaseAll(marked, t, s.held[t]), t);
    }
  }

  /** Every reachable state satisfies the invariant. */
  lemma {:induction false} RunKeepsInv(s: Table, steps: seq<Step>)
    requires Inv(s) && Legal(s, steps)
    ensures Inv(Run(s, steps))
    decreases |steps|
  {
    if steps != [] {
      var n := |steps| - 1;
      assert steps[..n] + [steps[n]] == steps;
      RunSnoc(s, steps[..n], steps[n]);
      RunKeepsInv(s, steps[..n]);
      StepKeepsInv(Run(s, steps[..n]), steps[n]);
    }
  }
}
