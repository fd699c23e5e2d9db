/** Two short runs that show why the theorems carry the conditions they do. */
module LockWitnesses {
  import opened Ids
  import opened LockModes
  import opened LockTable
  import opened LockSafety
  import opened LockRuns
  import opened LockHierarchy
  import opened Wrappers

  /** Some legal, disciplined run leads from the empty table to `s`. */
  ghost predicate Reachable(s: Table) {
    exists steps :: Reaches(steps, s)
  }

  ghost predicate Reaches(steps: seq<Step>, s: Table) {
    Legal(EMPTY, steps) && DisciplinedRun(EMPTY, steps) && Run(EMPTY, steps) == s
  }

  lemma Extend(s: Table, step: Step) returns (s': Table)
    requires Reachable(s) && Enabled(s, step) && Disciplined(s, step)
    ensures s' == Apply(s, step) && Reachable(s') && Inv(s)
  {
    var steps :| Reaches(steps, s);
    assert (steps + [step])[..|steps|] == steps;
    RunSnoc(EMPTY, steps, step);
    EmptyInv();
    RunKeepsInv(EMPTY, steps);
    s' := Apply(s, step);
    assert Reaches(steps + [step], s');
  }

  /** A request on `r` whose decision is `c`; `o` is another resource. */
  lemma Ask(s: Table, t: TxnId, r: ResId, m: LockType, found: Option<LockType>, c: Change, o: ResId)
      returns (s': Table)
    requires Reachable(s) && t !in s.completed && CanFind(s, t, r, found) && o != r
    requires r in s.parent ==> HoldsCovering(s, t, s.parent[r], AncestorIntention(m))
    requires Decide(LocksOn(s, r), QueueOn(s, r), t, m, found).change == c
    ensures Reachable(s') && s'.completed == s.completed && s'.parent == s.parent
    ensures LocksOn(s', r) == LocksAfter(LocksOn(s, r), QueueOn(s, r), t, c)
    ensures QueueOn(s', r) == QueueAfter(LocksOn(s, r), QueueOn(s, r), t, c)
    ensures LocksOn(s', o) == LocksOn(s, o) && QueueOn(s', o) == QueueOn(s, o)
  {
    var step := Request(t, r, m, found);
    s' := Extend(s, step);
    StepAround(s, step);
    RequestChanges(s, step, r);
    RequestChanges(s, step, o);
  }

  lemma Finish(s: Table, t: TxnId, r: ResId) returns (s': Table)
    requires Reachable(s) && t !in s.completed && Holds(s, t, r)
    ensures Reachable(s') && s'.completed == s.completed + {t} && s'.parent == s.parent
    ensures LocksOn(s', r) == RefilledLocks(LocksOn(s, r), QueueOn(s, r), t)
    ensures QueueOn(s', r) == RefilledQueue(LocksOn(s, r), QueueOn(s, r), t)
  {
    s' := Extend(s, Complete(t));
    StepAround(s, Complete(t));
    assert IndexAt(s, t, r);
    CompleteChanges(s, t, r);
  }

  lemma EmptyIsReachable()
    ensures Reachable(EMPTY)
  {
    assert Reaches([], EMPTY);
  }

  /** The new owner of an exclusive lock, and a waiting request of its own, are both gone through by its
      completion: the request is granted. */
  lemma OwnRequestRefills(t: TxnId, m: LockType)
    ensures RefilledLocks(multiset{Lock(t, m)}, [Lock(t, m)], t) == multiset{Lock(t, m)}
  {
    var l := Lock(t, m);
    assert Drop(multiset{l}, t) == multiset{};
    assert [l][..1] == [l] && Fits(multiset{}, m);
    assert multiset{} + multiset{l} == multiset{l};
  }

  lemma BlockedRequestStays(t: TxnId, x: TxnId)
    requires t != x
    ensures var ls, q := multiset{Lock(t, SHARED), Lock(x, SHARED)}, [Lock(t, EXCLUSIVE)];
            RefilledLocks(ls, q, x) == multiset{Lock(t, SHARED)} && RefilledQueue(ls, q, x) == q
  {
    var ls, q := multiset{Lock(t, SHARED), Lock(x, SHARED)}, [Lock(t, EXCLUSIVE)];
    assert Drop(ls, x) == multiset{Lock(t, SHARED)};
    assert Lock(t, SHARED) in multiset{Lock(t, SHARED)};
    assert q[..0] == [] && q[0..] == q;
  }

  lemma TwoReaders() returns (s: Table)
    ensures Reachable(s) && s.completed == {} && 7 !in s.parent
    ensures LocksOn(s, 7) == multiset{Lock(1, SHARED), Lock(2, SHARED)} && QueueOn(s, 7) == []
  {
    EmptyIsReachable();
    s := Ask(EMPTY, 1, 7, SHARED, None, Added(SHARED), 0);
    assert LocksOn(s, 7) == multiset{Lock(1, SHARED)};
    assert !Holds(s, 2, 7);
    s := Ask(s, 2, 7, SHARED, None, Added(SHARED), 0);
  }

  lemma UpgradeWaits() returns (s: Table)
    ensures Reachable(s) && s.completed == {} && 7 !in s.parent
    ensures LocksOn(s, 7) == multiset{Lock(1, SHARED), Lock(2, SHARED)} && QueueOn(s, 7) == [Lock(1, EXCLUSIVE)]
  {
    s := TwoReaders();
    assert Lock(1, SHARED) in LocksOn(s, 7) && Lock(2, SHARED) in LocksOn(s, 7);
    s := Ask(s, 1, 7, EXCLUSIVE, Some(SHARED), Waits(EXCLUSIVE), 0);
  }

  lemma UpgradeSucceedsLater() returns (s: Table)
    ensures Reachable(s) && s.completed == {2}
    ensures LocksOn(s, 7) == multiset{Lock(1, EXCLUSIVE)} && QueueOn(s, 7) == [Lock(1, EXCLUSIVE)]
  {
    s := UpgradeWaits();
    assert Lock(2, SHARED) in LocksOn(s, 7);
    s := Finish(s, 2, 7);
    BlockedRequestStays(1, 2);
    assert Lock(1, SHARED) in LocksOn(s, 7);
    s := Ask(s, 1, 7, EXCLUSIVE, Some(SHARED), Swapped(SHARED, EXCLUSIVE), 0);
  }

  /** Two readers, an upgrade that waits, the other reader leaves, the upgrade is granted on a second try:
      the first request is still queued, and completion hands the exclusive lock back to the completed
      transaction, which keeps it. */
  lemma StaleRequestIsGrantedToCompleted() returns (s: Table)
    ensures Reachable(s) && 1 in s.completed && LocksOn(s, 7) == multiset{Lock(1, EXCLUSIVE)}
  {
    s := UpgradeSucceedsLater();
    assert Lock(1, EXCLUSIVE) in LocksOn(s, 7);
    s := Finish(s, 1, 7);
    OwnRequestRefills(1, EXCLUSIVE);
  }

  lemma ParentAndChild() returns (s: Table)
    ensures Reachable(s) && s.completed == {} && s.parent == map[2 := 1]
    ensures LocksOn(s, 1) == LocksOn(s, 2) == multiset{}
  {
    EmptyIsReachable();
    s := Extend(EMPTY, SetParent(2, 1));
  }

  lemma WriterBelow() returns (s: Table)
    ensures Reachable(s) && s.completed == {} && s.parent == map[2 := 1]
    ensures LocksOn(s, 1) == multiset{Lock(1, INTENTION_EXCLUSIVE)}
    ensures LocksOn(s, 2) == multiset{Lock(1, EXCLUSIVE)}
  {
    s := ParentAndChild();
    s := Ask(s, 1, 1, INTENTION_EXCLUSIVE, None, Added(INTENTION_EXCLUSIVE), 2);
    assert Lock(1, INTENTION_EXCLUSIVE) in LocksOn(s, 1);
    s := Ask(s, 1, 2, EXCLUSIVE, None, Added(EXCLUSIVE), 1);
  }

  lemma WriterWeakened() returns (s: Table)
    ensures Reachable(s) && s.completed == {} && s.parent == map[2 := 1]
    ensures LocksOn(s, 1) == multiset{Lock(1, INTENTION_SHARED)}
    ensures LocksOn(s, 2) == multiset{Lock(1, EXCLUSIVE)}
  {
    s := WriterBelow();
    assert Lock(1, INTENTION_EXCLUSIVE) in LocksOn(s, 1);
    s := Ask(s, 1, 1, INTENTION_SHARED, Some(INTENTION_EXCLUSIVE), Swapped(INTENTION_EXCLUSIVE, INTENTION_SHARED), 2);
  }

  /** Writing below one child and then asking for a read below another weakens the writer's IX on the
      parent to IS; a second transaction then reads the whole parent while the exclusive lock below it is
      still held. */
  lemma WeakenedIntentionHidesWriter() returns (s: Table)
    ensures Reachable(s) && s.completed == {} && Above(s.parent, 1, 2)
    ensures Lock(2, SHARED) in LocksOn(s, 1) && Lock(1, EXCLUSIVE) in LocksOn(s, 2)
  {
    s := WriterWeakened();
    s := Ask(s, 2, 1, SHARED, None, Added(SHARED), 2);
    assert Lock(2, SHARED) in LocksOn(s, 1) && Lock(1, EXCLUSIVE) in LocksOn(s, 2);
    assert IsChain(s.parent, [2, 1]);
  }
}
