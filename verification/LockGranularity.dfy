/** The granularity theorem: when replacements only strengthen, every lock is announced on every ancestor,
    so locks on a node and locks below it conflict exactly as the compatibility table says. */
module LockGranularity {
  import opened Ids
  import opened LockModes
  import opened LockTable
  import opened LockSafety
  import opened LockRuns
  import opened LockHierarchy

  /** `t` holds or awaits mode `m` on `r`. */
  ghost predicate Wants(s: Table, t: TxnId, r: ResId, m: LockType) {
    Lock(t, m) in LocksOn(s, r) || Lock(t, m) in QueueOn(s, r)
  }

  ghost predicate AnnouncedAt(s: Table, t: TxnId, r: ResId, m: LockType) {
    t !in s.completed && r in s.parent && Wants(s, t, r, m) ==>
      HoldsCovering(s, t, s.parent[r], AncestorIntention(m))
  }

  ghost predicate AllAnnounced(s: Table) {
    forall t, r, m :: AnnouncedAt(s, t, r, m)
  }

  lemma ChangeWants(ls: multiset<Lock>, q: seq<LockRequest>, t: TxnId, c: Change, l: Lock)
    requires Guarded(ls, q, t, c)
    requires l in LocksAfter(ls, q, t, c) || l in QueueAfter(ls, q, t, c)
    ensures l in ls || l in q || (l.txn == t && (c.Added? || c.Swapped? || c.Waits?) && l.mode == c.mode)
  {
    if c.Refilled? && l in LocksAfter(ls, q, t, c) && l !in ls {
      assert l in multiset(AdmittedFrom(ls, q, t));
      assert l in AdmittedFrom(ls, q, t);
    }
  }

  lemma OnlyRequestsWant(s: Table, step: Step, t: TxnId, r: ResId, m: LockType)
    requires Inv(s) && Enabled(s, step) && Wants(Apply(s, step), t, r, m)
    ensures Wants(s, t, r, m)
         || (step.Request? && step.txn == t && step.res == r && step.mode == m && t !in s.completed)
  {
    StepChanges(s, step, r);
    ChangeWants(LocksOn(s, r), QueueOn(s, r), Actor(step), ChangeOn(s, step, r), Lock(t, m));
    if step.Request? && step.res == r {
      RequestModeIsAsked(s, step);
    }
  }

  lemma RequestModeIsAsked(s: Table, step: Step)
    requires step.Request?
    ensures var c := RequestChange(s, step);
            c.Same? || (step.txn !in s.completed && !c.Refilled? && c.mode == step.mode)
  {
  }

  lemma ChangeKeepsCovering(ls: multiset<Lock>, q: seq<LockRequest>, t: TxnId, c: Change, l: Lock, m: LockType)
      returns (l': Lock)
    requires Guarded(ls, q, t, c) && (c.Refilled? ==> l.txn != t)
    requires l in ls && Covers(l.mode, m)
    requires c.Swapped? && l == Lock(t, c.was) ==> Covers(c.mode, c.was)
    ensures l' in LocksAfter(ls, q, t, c) && l'.txn == l.txn && Covers(l'.mode, m)
  {
    l' := if c.Swapped? && l == Lock(t, c.was) then Lock(t, c.mode) else l;
    if c.Swapped? && l == Lock(t, c.was) {
      CoversTransitive(c.mode, c.was, m);
    }
  }

  lemma StepKeepsCovering(s: Table, step: Step, t: TxnId, r: ResId, m: LockType)
    requires Inv(s) && Enabled(s, step) && CoverOnly(s, step) && t !in Apply(s, step).completed
    requires HoldsCovering(s, t, r, m)
    ensures HoldsCovering(Apply(s, step), t, r, m)
  {
    StepAround(s, step);
    StepChanges(s, step, r);
    var l :| l in LocksOn(s, r) && l.txn == t && Covers(l.mode, m);
    if step.Request? {
      SwapIsCovering(s, step);
    }
    var l' := ChangeKeepsCovering(LocksOn(s, r), QueueOn(s, r), Actor(step), ChangeOn(s, step, r), l, m);
  }

  lemma SwapIsCovering(s: Table, step: Step)
    requires step.Request? && CoverOnly(s, step)
    ensures var c := RequestChange(s, step); c.Swapped? ==> Covers(c.mode, c.was)
  {
  }

  lemma StepKeepsAnnounced(s: Table, step: Step, t: TxnId, r: ResId, m: LockType)
    requires Inv(s) && Enabled(s, step) && Disciplined(s, step) && CoverOnly(s, step)
    requires AnnouncedAt(s, t, r, m)
    ensures AnnouncedAt(Apply(s, step), t, r, m)
  {
    var s' := Apply(s, step);
    StepAround(s, step);
    if t !in s'.completed && r in s'.parent && Wants(s', t, r, m) {
      OnlyRequestsWant(s, step, t, r, m);
      if !step.SetParent? || step.child != r {
        StepKeepsCovering(s, step, t, s.parent[r], AncestorIntention(m));
      }
    }
  }

  // ---------------------------------------------------------------- the theorem

  /** From the parent to every ancestor: X and IX are announced by a mode covering IX, S and IS by one
      covering IS. */
  lemma {:induction false} AnnouncedUpwards(s: Table, t: TxnId, c: seq<ResId>, m: LockType)
    requires AllAnnounced(s) && IsChain(s.parent, c) && |c| > 1
    requires t !in s.completed && Wants(s, t, c[0], m)
    ensures HoldsCovering(s, t, c[|c| - 1], AncestorIntention(m))
    ensures m == EXCLUSIVE || m == INTENTION_EXCLUSIVE ==>
              exists l :: l in LocksOn(s, c[|c| - 1]) && l.txn == t && l.mode in {EXCLUSIVE, INTENTION_EXCLUSIVE}
    ensures m == SHARED || m == INTENTION_SHARED ==>
              exists l :: l in LocksOn(s, c[|c| - 1]) && l.txn == t && l.mode != NONE
    decreases |c|
  {
    assert AnnouncedAt(s, t, c[0], m);
    if |c| > 2 {
      var l :| l in LocksOn(s, c[1]) && l.txn == t && Covers(l.mode, AncestorIntention(m));
      assert IsChain(s.parent, c[1..]);
      AnnouncedUpwards(s, t, c[1..], l.mode);
      var top :| top in LocksOn(s, c[|c| - 1]) && top.txn == t && Covers(top.mode, AncestorIntention(l.mode));
      IntentionIsMonotone(l.mode, m);
      CoversTransitive(top.mode, AncestorIntention(l.mode), AncestorIntention(m));
    }
  }

  lemma IntentionIsMonotone(l: LockType, m: LockType)
    requires Covers(l, AncestorIntention(m))
    ensures Covers(AncestorIntention(l), AncestorIntention(m))
  {
  }

  /** In any announced state, two uncompleted transactions never hold a mode on a node and want a mode strictly
      below it unless the upper mode is compatible with what the lower one announces: nothing goes below X, and
      neither X nor IX below S. */
  lemma NoConflictAcrossLevels(s: Table, a: ResId, d: ResId,
                               t: TxnId, upper: LockType, x: TxnId, lower: LockType)
    requires Inv(s) && AllAnnounced(s) && Above(s.parent, a, d) && a != d
    requires t != x && x !in s.completed
    requires Lock(t, upper) in LocksOn(s, a) && Wants(s, x, d, lower) && lower != NONE
    ensures lower == EXCLUSIVE || lower == INTENTION_EXCLUSIVE ==> upper != SHARED && upper != EXCLUSIVE
    ensures upper != EXCLUSIVE
  {
    hide AllAnnounced, Covers, Wants;
    var c :| IsChain(s.parent, c) && c[0] == d && c[|c| - 1] == a;
    AnnouncedUpwards(s, x, c, lower);
    assert ResourceSafe(LocksOn(s, a), QueueOn(s, a));
    BesideAnAnnouncement(LocksOn(s, a), t, upper, x, lower);
  }

  lemma BesideAnAnnouncement(ls: multiset<Lock>, t: TxnId, upper: LockType, x: TxnId, lower: LockType)
    requires PairwiseCompatible(ls) && Lock(t, upper) in ls && x != t && lower != NONE
    requires exists l :: l in ls && l.txn == x && Covers(l.mode, AncestorIntention(lower))
    ensures lower == EXCLUSIVE || lower == INTENTION_EXCLUSIVE ==> upper != SHARED && upper != EXCLUSIVE
    ensures upper != EXCLUSIVE
  {
    var l :| l in ls && l.txn == x && Covers(l.mode, AncestorIntention(lower));
    BlocksAsMuchIff(l.mode, AncestorIntention(lower));
    assert Compatible(l.mode, upper);
  }

  // ---------------------------------------------------------------- exactly when a replacement is safe

  /** Replacing the own lock `h` on `p` by `m` leaves everything `t` wants just below `p` announced. */
  ghost predicate StillAnnounced(s: Table, t: TxnId, p: ResId, h: LockType, m: LockType) {
    forall r, w :: r in s.parent && s.parent[r] == p && Wants(s, t, r, w) ==>
      || Covers(m, AncestorIntention(w))
      || exists l :: l in LocksOn(s, p) - multiset{Lock(t, h)} && l.txn == t && Covers(l.mode, AncestorIntention(w))
  }

  /** A replacement, weakening or not, keeps all announcements if and only if the condition holds before
      the call. */
  lemma ReplacementSafeIff(s: Table, step: Step)
    requires Inv(s) && HierarchyOk(s) && AllAnnounced(s)
    requires Enabled(s, step) && Disciplined(s, step)
    requires step.Request? && step.txn !in s.completed && RequestChange(s, step).Swapped?
    ensures AllAnnounced(Apply(s, step))
       <==> StillAnnounced(s, step.txn, step.res, step.found.value, step.mode)
  {
    var Request(t, p, m, found) := step;
    var h := found.value;
    var s' := Apply(s, step);
    var rest := LocksOn(s, p) - multiset{Lock(t, h)};
    RequestModeIsAsked(s, step);
    RequestChanges(s, step, p);
    StepAround(s, step);
    assert LocksOn(s', p) == rest + multiset{Lock(t, m)};
    forall r, w | r in s.parent && s.parent[r] == p && Wants(s, t, r, w)
      ensures AnnouncedAt(s', t, r, w) <==>
                (|| Covers(m, AncestorIntention(w))
                 || exists l :: l in rest && l.txn == t && Covers(l.mode, AncestorIntention(w))) {
      NoSelfParent(s.parent, r);
      RequestChanges(s, step, r);
      assert Wants(s', t, r, w);
      assert Lock(t, m) in LocksOn(s', p);
      assert forall l :: l in LocksOn(s', p) <==> l in rest || l == Lock(t, m);
    }
    if StillAnnounced(s, t, p, h, m) {
      forall x, r, w ensures AnnouncedAt(s', x, r, w) {
        OtherAnnouncementsStay(s, step, x, r, w);
      }
    }
  }

  lemma NoSelfParent(p: Parents, r: ResId)
    requires Acyclic(p) && r in p
    ensures p[r] != r
  {
    assert IsChain(p, [r, p[r]]);
  }

  /** Elsewhere, or for another transaction, a request keeps what covers. */
  lemma RequestKeepsOtherCovering(s: Table, step: Step, x: TxnId, p: ResId, m: LockType)
    requires step.Request? && Enabled(s, step) && HoldsCovering(s, x, p, m)
    requires p != step.res || x != step.txn
    ensures HoldsCovering(Apply(s, step), x, p, m)
  {
    hide Apply;
    RequestChanges(s, step, p);
    var l :| l in LocksOn(s, p) && l.txn == x && Covers(l.mode, m);
    assert l in LocksOn(Apply(s, step), p);
  }

  lemma OtherAnnouncementsStay(s: Table, step: Step, x: TxnId, r: ResId, w: LockType)
    requires Inv(s) && HierarchyOk(s) && AllAnnounced(s) && Enabled(s, step) && Disciplined(s, step)
    requires step.Request? && step.txn !in s.completed && RequestChange(s, step).Swapped?
    requires r in s.parent && s.parent[r] == step.res && x == step.txn && Wants(s, x, r, w)
             ==> AnnouncedAt(Apply(s, step), x, r, w)
    ensures AnnouncedAt(Apply(s, step), x, r, w)
  {
    hide Apply, Inv;
    var s' := Apply(s, step);
    StepAround(s, step);
    if x !in s'.completed && r in s'.parent && Wants(s', x, r, w)
       && !(s.parent[r] == step.res && x == step.txn && Wants(s, x, r, w)) {
      OnlyRequestsWant(s, step, x, r, w);
      assert AnnouncedAt(s, x, r, w);
      NoSelfParent(s.parent, r);
      RequestKeepsOtherCovering(s, step, x, s.parent[r], AncestorIntention(w));
    }
  }

  // ---------------------------------------------------------------- whole runs

  /** The step replaces no lock, or one whose replacement leaves everything announced. */
  ghost predicate SafeReplacement(s: Table, step: Step) {
    step.Request? && step.txn !in s.completed && RequestChange(s, step).Swapped? ==>
      StillAnnounced(s, step.txn, step.res, step.found.value, step.mode)
  }

  ghost predicate SafeRun(s: Table, steps: seq<Step>) {
    steps == [] ||
    (var n := |steps| - 1; SafeRun(s, steps[..n]) && SafeReplacement(Run(s, steps[..n]), steps[n]))
  }

  lemma StepKeepsAllAnnounced(s: Table, step: Step)
    requires Inv(s) && HierarchyOk(s) && AllAnnounced(s)
    requires Enabled(s, step) && Disciplined(s, step) && SafeReplacement(s, step)
    ensures AllAnnounced(Apply(s, step))
  {
    hide Apply, Inv, HierarchyOk, Enabled, Disciplined, StillAnnounced;
    if step.Request? && step.txn !in s.completed && RequestChange(s, step).Swapped? {
      ReplacementSafeIff(s, step);
    } else {
      NoReplacement(s, step);
      forall t, r, m ensures AnnouncedAt(Apply(s, step), t, r, m) {
        assert AnnouncedAt(s, t, r, m);
        StepKeepsAnnounced(s, step, t, r, m);
      }
    }
  }

  lemma NoReplacement(s: Table, step: Step)
    requires step.Request? && RequestChange(s, step).Swapped? ==> step.txn in s.completed
    ensures CoverOnly(s, step)
  {
  }

  /** A replacement by a covering mode is always safe. */
  lemma CoverOnlyIsSafe(s: Table, step: Step)
    requires AllAnnounced(s) && Enabled(s, step) && CoverOnly(s, step)
    ensures SafeReplacement(s, step)
  {
    if step.Request? && step.txn !in s.completed && RequestChange(s, step).Swapped? {
      var Request(t, p, m, found) := step;
      var h := found.value;
      var rest := LocksOn(s, p) - multiset{Lock(t, h)};
      forall r, w | r in s.parent && s.parent[r] == p && Wants(s, t, r, w) && !Covers(m, AncestorIntention(w))
        ensures exists l :: l in rest && l.txn == t && Covers(l.mode, AncestorIntention(w)) {
        assert AnnouncedAt(s, t, r, w);
        var l :| l in LocksOn(s, p) && l.txn == t && Covers(l.mode, AncestorIntention(w));
        if l == Lock(t, h) {
          CoversTransitive(m, h, AncestorIntention(w));
        }
        assert l in rest;
      }
    }
  }

  /** A legal, disciplined run whose replacements are all safe keeps everything announced; a run whose
      replacements all cover is one. */
  lemma {:induction false} Granularity(s: Table, steps: seq<Step>)
    requires Inv(s) && HierarchyOk(s) && AllAnnounced(s)
    requires Legal(s, steps) && DisciplinedRun(s, steps) && (SafeRun(s, steps) || CoverOnlyRun(s, steps))
    ensures SafeRun(s, steps) && AllAnnounced(Run(s, steps))
    ensures Inv(Run(s, steps)) && HierarchyOk(Run(s, steps))
    decreases |steps|
  {
    hide Inv, HierarchyOk, AllAnnounced, Apply, Enabled, Disciplined, CoverOnly, SafeReplacement;
    if steps != [] {
      var n := |steps| - 1;
      var mid := Run(s, steps[..n]);
      Granularity(s, steps[..n]);
      if CoverOnlyRun(s, steps) {
        CoverOnlyIsSafe(mid, steps[n]);
      }
      StepKeepsAllAnnounced(mid, steps[n]);
      StepKeepsInv(mid, steps[n]);
      StepKeepsHierarchy(mid, steps[n]);
    }
  }

  ghost predicate AnnouncedThroughout(s: Table, steps: seq<Step>) {
    AllAnnounced(Run(s, steps)) && (steps == [] || AnnouncedThroughout(s, steps[..|steps| - 1]))
  }

  /** Exactly the runs whose replacements are all safe keep everything announced in every state. */
  lemma {:induction false} AnnouncedThroughoutIff(s: Table, steps: seq<Step>)
    requires Inv(s) && HierarchyOk(s) && AllAnnounced(s) && Legal(s, steps) && DisciplinedRun(s, steps)
    ensures AnnouncedThroughout(s, steps) <==> SafeRun(s, steps)
    decreases |steps|
  {
    hide Inv, HierarchyOk, AllAnnounced, Apply, Enabled, Disciplined, StillAnnounced;
    if steps != [] {
      var n := |steps| - 1;
      var mid, step := Run(s, steps[..n]), steps[n];
      AnnouncedThroughoutIff(s, steps[..n]);
      if SafeRun(s, steps[..n]) {
        Granularity(s, steps[..n]);
        if SafeReplacement(mid, step) {
          StepKeepsAllAnnounced(mid, step);
        } else {
          ReplacementSafeIff(mid, step);
        }
      }
    }
  }
}
