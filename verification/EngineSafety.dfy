/** Every action of the engine keeps its invariant. */
module EngineSafety {
  import opened Engine
  import opened Histories
  import opened Ids
  import opened LockModes
  import opened LockTable
  import opened LockSafety
  import opened LockRuns
  import opened LockHierarchy
  import opened LogRecords
  import opened Recovery
  import opened Wrappers

  // ---------------------------------------------------------------- one more event in the history

  lemma CompletionsSnoc(es: seq<Event>, e: Event)
    ensures Completions(es + [e]) == Completions(es) + (if e.Done? then [e.txn] else [])
    ensures Updates(es + [e]) == Updates(es) + (if e.Write? then [Entry(e.txn, UPDATE)] else [])
    ensures CommitTxns(es + [e]) == CommitTxns(es) + (if e.Done? && e.committed then {e.txn} else {})
  {
    assert (es + [e])[..|es|] == es;
  }

  lemma DataSnoc(log: seq<Entry>, e: Entry)
    ensures DataEntries(log + [e]) == DataEntries(log) + (if IsDataModification(e.kind) then [e] else [])
  {
    assert (log + [e])[..|log|] == log;
  }

  lemma {:induction false} CommitIsCompletion(es: seq<Event>, t: TxnId)
    ensures t in CommitTxns(es) ==> t in Completions(es)
  {
    if es != [] {
      CommitIsCompletion(es[..|es| - 1], t);
    }
  }

  /** The history of events stays in order when an event of an active transaction is added. */
  lemma TraceSnoc(s: Sys, s': Sys, e: Event)
    requires TxnsOk(s) && TraceOk(s) && e.txn in s.active && (!e.Done? ==> e.res in s.store)
    requires s'.trace == s.trace + [e] && s'.store.Keys == s.store.Keys
    requires s'.active == (if e.Done? then s.active - {e.txn} else s.active)
    requires s'.locks.completed == (if e.Done? then s.locks.completed + {e.txn} else s.locks.completed)
    ensures TraceOk(s')
  {
    hide Completions;
    var es := s.trace + [e];
    CompletionsSnoc(s.trace, e);
    assert forall i :: 0 <= i < |s.trace| ==> es[i] == s.trace[i];
    forall k, j | 0 <= k < j < |es| && es[k].Done? ensures es[j].txn != es[k].txn {
      if j == |s.trace| {
        CompletionsExact(s.trace, es[k].txn);
        assert IsDone(s.trace[k], es[k].txn);
      }
    }
  }

  // ---------------------------------------------------------------- strictness of the next event

  ghost predicate NextSeparated(p: Parents, es: seq<Event>, e: Event) {
    forall i :: 0 <= i < |es| && es[i].txn != e.txn && Clash(p, es[i], e) ==> es[i].txn in Completions(es)
  }

  /** If every earlier clashing transaction is complete, the longer history is strict too. */
  lemma StrictSnoc(p: Parents, es: seq<Event>, e: Event)
    requires StrictUnder(p, es) && QuietAfterDone(es) && NextSeparated(p, es, e)
    ensures StrictUnder(p, es + [e])
  {
    hide Clash, Completions;
    var all := es + [e];
    assert forall i :: 0 <= i < |es| ==> all[i] == es[i];
    forall i, j | 0 <= i < j < |all| && all[i].txn != all[j].txn && Clash(p, all[i], all[j])
      ensures Separated(all, i, j) {
      if j < |es| {
        var k :| i < k < j && IsDone(es[k], es[i].txn);
        assert IsDone(all[k], all[i].txn);
      } else {
        CompletionAfter(p, es, e, i);
        var k :| i < k < |es| && IsDone(es[k], es[i].txn);
        assert IsDone(all[k], all[i].txn);
      }
    }
  }

  lemma CompletionAfter(p: Parents, es: seq<Event>, e: Event, i: int)
    requires QuietAfterDone(es) && 0 <= i < |es| && es[i].txn in Completions(es) && Clash(p, es[i], e)
    ensures exists k :: i < k < |es| && IsDone(es[k], es[i].txn)
  {
    CompletionsExact(es, es[i].txn);
    var k :| 0 <= k < |es| && IsDone(es[k], es[i].txn);
    assert i < k;
  }

  /** Two operations covered by locks at the same time, by different uncompleted transactions, do not clash. */
  lemma CoveredDoNotClash(locks: Table, a: Event, b: Event)
    requires LocksOk(locks) && !a.Done? && !b.Done? && a.txn != b.txn
    requires CoveredBy(locks, a) && CoveredBy(locks, b)
    requires a.txn !in locks.completed && b.txn !in locks.completed
    ensures !Clash(locks.parent, a, b)
  {
    if a.Write? && Above(locks.parent, a.res, b.res) {
      ExclusiveOwnsSubtree(locks, a.txn, a.res, b.res, b.txn);
    }
    if b.Write? && Above(locks.parent, b.res, a.res) {
      ExclusiveOwnsSubtree(locks, b.txn, b.res, a.res, a.txn);
    }
  }

  lemma NextIsSeparated(s: Sys, locks: Table, e: Event)
    requires TxnsOk(s) && TraceOk(s) && Covered(s) && LocksOk(locks)
    requires locks.completed == s.locks.completed && locks.parent == s.locks.parent
    requires !e.Done? && e.txn in s.active && CoveredBy(locks, e)
    requires forall i :: 0 <= i < |s.trace| && s.trace[i].txn in s.active ==> CoveredBy(locks, s.trace[i])
    ensures NextSeparated(locks.parent, s.trace, e)
  {
    hide Clash, CoveredBy, Completions, LocksOk;
    forall i | 0 <= i < |s.trace| && s.trace[i].txn != e.txn && Clash(locks.parent, s.trace[i], e)
      ensures s.trace[i].txn in Completions(s.trace) {
      if s.trace[i].txn in s.active {
        ClashIsOperation(locks.parent, s.trace[i], e);
        CoveredDoNotClash(locks, s.trace[i], e);
      }
    }
  }

  lemma ClashIsOperation(p: Parents, a: Event, b: Event)
    requires Clash(p, a, b)
    ensures !a.Done? && !b.Done?
  {
  }

  // ---------------------------------------------------------------- the lock steps of one access

  lemma {:induction false} ClimbIsWithin(p: Parents, r: ResId, seen: set<ResId>)
    ensures forall x :: x in Climb(p, r, seen) ==> x in p.Values
    decreases p.Values - seen
  {
    if r in p && p[r] !in seen {
      ClimbIsWithin(p, p[r], seen + {p[r]});
    }
  }

  lemma PlanIsWithin(p: Parents, r: ResId, m: LockType, rs: set<ResId>)
    requires r in rs && p.Values <= rs
    ensures forall k :: 0 <= k < |Plan(p, r, m)| ==> Plan(p, r, m)[k].0 in rs
  {
    var up := Climb(p, r, {});
    ClimbIsWithin(p, r, {});
    assert forall k :: 0 <= k < |up| ==> up[k] in p.Values;
  }

  lemma RequestWithin(s: Table, step: Step, rs: set<ResId>)
    requires Within(s, rs) && step.Request? && step.res in rs
    ensures Within(LockTable.Apply(s, step), rs)
  {
    assert LockTable.Apply(s, step) == Update(s, step.txn, step.res, RequestChange(s, step));
    hide LockTable.Apply, RequestChange, LocksOn, QueueOn, HeldBy;
  }

  lemma {:induction false} ClimbedWithin(s: Table, t: TxnId, plan: seq<(ResId, LockType)>, steps: seq<Step>,
                                             rs: set<ResId>)
    requires Within(s, rs) && Climbed(s, t, plan, steps)
    requires forall k :: 0 <= k < |plan| ==> plan[k].0 in rs
    ensures Within(Run(s, steps), rs)
    decreases |steps|
  {
    if steps != [] {
      var n := |steps| - 1;
      ClimbedWithin(s, t, plan, steps[..n], rs);
      RequestWithin(Run(s, steps[..n]), steps[n], rs);
    }
  }

  lemma ServesWithin(s: Table, t: TxnId, r: ResId, m: LockType, steps: seq<Step>, ok: bool, rs: set<ResId>)
    requires Within(s, rs) && r in rs && Serves(s, t, Plan(s.parent, r, m), steps, ok)
    ensures Within(Run(s, steps), rs)
  {
    hide Plan, Within;
    if t !in s.completed {
      assert s.parent.Values <= rs by { WithinParents(s, rs); }
      PlanIsWithin(s.parent, r, m, rs);
      var n := |steps| - 1;
      if ok {
        ClimbedWithin(s, t, Plan(s.parent, r, m), steps, rs);
      } else {
        ClimbedWithin(s, t, Plan(s.parent, r, m), steps[..n], rs);
        RequestWithin(Run(s, steps[..n]), steps[n], rs);
      }
    }
  }

  lemma WithinParents(s: Table, rs: set<ResId>)
    requires Within(s, rs)
    ensures s.parent.Values <= rs
  {
  }

  /** What the lock steps of an access keep, and what a granted access is covered by. */
  lemma AccessLocks(s: Table, t: TxnId, r: ResId, w: Option<int>, steps: seq<Step>, ok: bool)
    requires LocksOk(s) && Serves(s, t, Plan(s.parent, r, ModeOf(w)), steps, ok)
    ensures LocksOk(Run(s, steps))
    ensures Run(s, steps).parent == s.parent && Run(s, steps).completed == s.completed
    ensures forall e: Event :: CoveredBy(s, e) && e.txn !in s.completed ==> CoveredBy(Run(s, steps), e)
    ensures ok ==> forall e: Event :: !e.Done? && e.txn == t && e.res == r && (e.Write? ==> w.Some?)
                     ==> CoveredBy(Run(s, steps), e)
  {
    var s' := Run(s, steps);
    RequestLockIsDisciplined(s, t, r, ModeOf(w), steps, ok);
    RunKeepsInv(s, steps);
    RunKeepsHierarchy(s, steps);
    forall e: Event | CoveredBy(s, e) && e.txn !in s.completed ensures CoveredBy(s', e) {
      if !e.Done? {
        Retention(s, steps, e.txn, e.res);
      }
    }
    if ok {
      var l :| l in LocksOn(s', r) && l.txn == t && Covers(l.mode, ModeOf(w));
      assert l == Lock(t, l.mode);
    }
  }

  // ---------------------------------------------------------------- the actions

  lemma BeginKeepsOk(s: Sys)
    requires SysOk(s)
    ensures SysOk(Perform(s, Begin))
  {
    var s' := Perform(s, Begin);
    hide LocksOk, StrictUnder, Executed, CoveredBy, Completions, Within, LogAgrees, TraceOk, TxnsOk;
    BeginCounts(s);
    BeginLogs(s);
    BeginTrace(s);
    SameExecution(s, s');
  }

  lemma BeginCounts(s: Sys)
    requires TxnsOk(s)
    ensures TxnsOk(Perform(s, Begin)) && s.nextTxn !in s.active
  {
    assert |s.active + {s.nextTxn}| == |s.active| + 1;
  }

  lemma BeginLogs(s: Sys)
    requires LogAgrees(s)
    ensures LogAgrees(Perform(s, Begin))
  {
    AppendEntry(s.log, Entry(s.nextTxn, BEGIN));
    DataSnoc(s.log, Entry(s.nextTxn, BEGIN));
  }

  /** A new transaction has no event yet. */
  lemma BeginTrace(s: Sys)
    requires TxnsOk(s) && TraceOk(s) && Covered(s)
    ensures TraceOk(Perform(s, Begin)) && Covered(Perform(s, Begin))
  {
    hide CoveredBy, Completions, QuietAfterDone;
  }

  lemma SameExecution(s: Sys, s': Sys)
    requires Executed(s) && s'.initial == s.initial && s'.trace == s.trace && s'.store == s.store
    ensures Executed(s')
  {
  }

  lemma CheckpointKeepsOk(s: Sys)
    requires SysOk(s)
    ensures SysOk(Perform(s, Checkpoint))
  {
    var s' := Perform(s, Checkpoint);
    hide LocksOk, StrictUnder, Executed, CoveredBy, Completions, Within, LogAgrees, QuietAfterDone;
    CheckpointLogs(s);
    SameExecution(s, s');
  }

  lemma CheckpointLogs(s: Sys)
    requires LogAgrees(s)
    ensures LogAgrees(Perform(s, Checkpoint))
  {
    AppendEntry(s.log, Entry(0, CHECKPOINT));
    DataSnoc(s.log, Entry(0, CHECKPOINT));
  }

  lemma DisownKeepsOk(s: Sys, t: TxnId)
    requires SysOk(s) && t !in s.active
    ensures SysOk(Perform(s, Disown(t)))
  {
    var s' := Perform(s, Disown(t));
    hide LocksOk, StrictUnder, Executed, CoveredBy, Completions, Within, LogAgrees, QuietAfterDone;
    DisownLogs(s, t);
    SameExecution(s, s');
  }

  lemma DisownLogs(s: Sys, t: TxnId)
    requires LogAgrees(s) && t !in s.active
    ensures LogAgrees(Perform(s, Disown(t)))
  {
    hide CommittedIn, ActiveIn, DataEntries, Updates, CommitTxns;
    AppendEntry(s.log, Entry(t, ABORT));
    DataSnoc(s.log, Entry(t, ABORT));
  }

  /** An access that is refused changes the locks only. */
  lemma RefusedKeepsOk(s: Sys, locks: Table)
    requires SysOk(s) && LocksOk(locks) && Within(locks, s.store.Keys)
    requires locks.completed == s.locks.completed && locks.parent == s.locks.parent
    requires forall e: Event :: CoveredBy(s.locks, e) && e.txn !in s.locks.completed ==> CoveredBy(locks, e)
    ensures SysOk(s.(locks := locks))
  {
    hide LocksOk, StrictUnder, Executed, CoveredBy, Completions, Within, LogAgrees;
    var s' := s.(locks := locks);
    SameExecution(s, s');
    assert LogAgrees(s') by { SameLog(s, s'); }
  }

  lemma SameLog(s: Sys, s': Sys)
    requires LogAgrees(s) && s'.log == s.log && s'.trace == s.trace
    requires s'.active == s.active && s'.committed == s.committed
    ensures LogAgrees(s')
  {
  }

  lemma ExecuteKeepsOk(s: Sys, t: TxnId, r: ResId, w: Option<int>)
    requires SysOk(s) && t in s.active && r in s.store
    requires forall e: Event :: !e.Done? && e.txn == t && e.res == r && (e.Write? ==> w.Some?) ==> CoveredBy(s.locks, e)
    ensures SysOk(Execute(s, t, r, w))
  {
    hide LocksOk, StrictUnder, Executed, CoveredBy, Within, LogAgrees, TraceOk, Covered, TxnsOk;
    var s' := Execute(s, t, r, w);
    var e := if w.None? then Read(t, r, ValueOf(s.store, r)) else Write(t, r, w.value);
    ExecuteReplays(s, t, r, w, e);
    ExecuteLogs(s, t, r, w, e);
    assert s'.store.Keys == s.store.Keys;
    assert CoveredBy(s.locks, e);
    ExecuteTrace(s, s', e);
    SameCounts(s, s');
  }

  lemma SameCounts(s: Sys, s': Sys)
    requires TxnsOk(s) && s'.active == s.active && s'.nextTxn == s.nextTxn && s'.committed == s.committed
    requires s'.aborted == s.aborted && s'.locks.completed == s.locks.completed
    ensures TxnsOk(s')
  {
  }

  lemma ExecuteTrace(s: Sys, s': Sys, e: Event)
    requires TxnsOk(s) && TraceOk(s) && Covered(s) && LocksOk(s.locks) && StrictUnder(s.locks.parent, s.trace)
    requires !e.Done? && e.txn in s.active && e.res in s.store && CoveredBy(s.locks, e)
    requires s'.trace == s.trace + [e] && s'.store.Keys == s.store.Keys
    requires s'.active == s.active && s'.locks == s.locks
    ensures TraceOk(s') && Covered(s') && StrictUnder(s'.locks.parent, s'.trace)
  {
    hide LocksOk, StrictUnder, CoveredBy, Completions, TraceOk, Covered, QuietAfterDone, NextSeparated, TxnsOk;
    TraceSnoc(s, s', e);
    TraceIsQuiet(s);
    CoveredSnoc(s, s', e);
    CoveredEvents(s);
    NextIsSeparated(s, s.locks, e);
    StrictSnoc(s.locks.parent, s.trace, e);
  }

  lemma CoveredEvents(s: Sys)
    requires Covered(s)
    ensures forall i :: 0 <= i < |s.trace| && s.trace[i].txn in s.active ==> CoveredBy(s.locks, s.trace[i])
  {
  }

  /** Every event stays covered by the locks of its transaction when one more is. */
  lemma CoveredSnoc(s: Sys, s': Sys, e: Event)
    requires Covered(s) && s'.trace == s.trace + [e] && s'.active <= s.active
    requires forall x: Event :: CoveredBy(s.locks, x) && x.txn in s'.active ==> CoveredBy(s'.locks, x)
    requires CoveredBy(s'.locks, e)
    ensures Covered(s')
  {
    hide CoveredBy;
    assert forall i :: 0 <= i < |s.trace| ==> s'.trace[i] == s.trace[i];
  }

  lemma TraceIsQuiet(s: Sys)
    requires TraceOk(s)
    ensures QuietAfterDone(s.trace)
  {
  }

  lemma ExecuteReplays(s: Sys, t: TxnId, r: ResId, w: Option<int>, e: Event)
    requires Executed(s) && r in s.store
    requires e == if w.None? then Read(t, r, ValueOf(s.store, r)) else Write(t, r, w.value)
    ensures Executed(Execute(s, t, r, w))
  {
    ReplaySnoc(Some(s.initial), s.trace, e);
  }

  lemma ExecuteLogs(s: Sys, t: TxnId, r: ResId, w: Option<int>, e: Event)
    requires LogAgrees(s)
    requires e == if w.None? then Read(t, r, ValueOf(s.store, r)) else Write(t, r, w.value)
    ensures LogAgrees(Execute(s, t, r, w))
  {
    CompletionsSnoc(s.trace, e);
    if w.Some? {
      AppendEntry(s.log, Entry(t, UPDATE));
      DataSnoc(s.log, Entry(t, UPDATE));
    }
  }

  lemma AccessKeepsOk(s: Sys, t: TxnId, r: ResId, w: Option<int>, steps: seq<Step>, ok: bool)
    requires SysOk(s) && Allowed(s, Access(t, r, w, steps, ok))
    ensures SysOk(Perform(s, Access(t, r, w, steps, ok)))
  {
    var locks := Run(s.locks, steps);
    AccessLocks(s.locks, t, r, w, steps, ok);
    ServesWithin(s.locks, t, r, ModeOf(w), steps, ok, s.store.Keys);
    hide Run, LocksOk, StrictUnder, Executed, CoveredBy, Completions, Within, LogAgrees, TraceOk, Covered;
    RefusedKeepsOk(s, locks);
    if ok {
      ExecuteKeepsOk(s.(locks := locks), t, r, w);
    }
  }

  // ---------------------------------------------------------------- creating a resource

  lemma AttachKeeps(s: Table, r: ResId, up: Option<ResId>, rs: set<ResId>)
    requires LocksOk(s) && Within(s, rs) && r !in rs && (up.Some? ==> up.value in rs)
    ensures LocksOk(Attach(s, r, up)) && Within(Attach(s, r, up), rs + {r})
    ensures Attach(s, r, up).completed == s.completed
    ensures forall o :: LocksOn(Attach(s, r, up), o) == LocksOn(s, o)
  {
    if up.Some? {
      var step := SetParent(r, up.value);
      assert FreshChild(s, r, up.value);
      StepKeepsInv(s, step);
      StepKeepsHierarchy(s, step);
      forall x | x in s.parent[r := up.value].Values ensures x in rs + {r} {
        assert x == up.value || x in s.parent.Values;
      }
    }
  }

  /** Between resources that existed before, the hierarchy is what it was. */
  lemma AboveStaysOld(s: Table, r: ResId, up: Option<ResId>, rs: set<ResId>, a: ResId, d: ResId)
    requires Within(s, rs) && r !in rs && (up.Some? ==> up.value in rs) && d != r
    ensures Above(Attach(s, r, up).parent, a, d) ==> Above(s.parent, a, d)
  {
    if up.Some? && Above(Attach(s, r, up).parent, a, d) {
      var c :| IsChain(Attach(s, r, up).parent, c) && c[0] == d && c[|c| - 1] == a;
      ChainStaysOld(s.parent, r, up.value, c);
    }
  }

  lemma {:induction false} ReplayWithMore(m: Store, es: seq<Event>, r: ResId, v: int)
    requires r !in m && Replay(Some(m), es).Some?
    ensures Replay(Some(m), es).value.Keys == m.Keys
    ensures Replay(Some(m[r := v]), es) == Some(Replay(Some(m), es).value[r := v])
    decreases |es|
  {
    if es != [] {
      var n := |es| - 1;
      ReplayWithMore(m, es[..n], r, v);
      var before: Store := Replay(Some(m), es[..n]).value;
      if es[n].Write? {
        assert before[r := v][es[n].res := es[n].value] == before[es[n].res := es[n].value][r := v];
      }
    }
  }

  lemma AttachKeepsCovered(s: Sys, up: Option<ResId>)
    requires SysOk(s) && (up.Some? ==> up.value in s.store)
    ensures var p := Attach(s.locks, s.nextRes, up);
            && (forall e: Event :: CoveredBy(s.locks, e) ==> CoveredBy(p, e))
            && StrictUnder(p.parent, s.trace)
  {
    hide Inv, HierarchyOk, Executed, LogAgrees, TxnsOk, Completions, Separated, Attach, Above;
    var p := Attach(s.locks, s.nextRes, up);
    AttachKeeps(s.locks, s.nextRes, up, s.store.Keys);
    forall i, j | 0 <= i < j < |s.trace| && s.trace[i].txn != s.trace[j].txn && Clash(p.parent, s.trace[i], s.trace[j])
      ensures Separated(s.trace, i, j) {
      AboveStaysOld(s.locks, s.nextRes, up, s.store.Keys, s.trace[i].res, s.trace[j].res);
      AboveStaysOld(s.locks, s.nextRes, up, s.store.Keys, s.trace[j].res, s.trace[i].res);
      assert Clash(s.locks.parent, s.trace[i], s.trace[j]);
    }
  }

  lemma CreateKeepsOk(s: Sys, up: Option<ResId>, v: int)
    requires SysOk(s) && Allowed(s, Create(up, v))
    ensures SysOk(Perform(s, Create(up, v)))
  {
    var s' := Perform(s, Create(up, v));
    hide LocksOk, StrictUnder, CoveredBy, Completions, Within, LogAgrees, Attach, Executed, QuietAfterDone, Covered,
      TraceOk;
    AttachKeeps(s.locks, s.nextRes, up, s.store.Keys);
    AttachKeepsCovered(s, up);
    CreateReplays(s, up, v);
    CreateTrace(s, s', up, v);
    assert s.store.Keys + {s.nextRes} == s'.store.Keys;
    SameLog(s, s');
  }

  lemma CreateTrace(s: Sys, s': Sys, up: Option<ResId>, v: int)
    requires TraceOk(s) && Covered(s) && s' == Perform(s, Create(up, v)) && s'.locks.completed == s.locks.completed
    requires forall e: Event :: CoveredBy(s.locks, e) ==> CoveredBy(s'.locks, e)
    ensures TraceOk(s') && Covered(s')
  {
    hide CoveredBy, Completions, QuietAfterDone, Attach;
  }

  lemma CreateReplays(s: Sys, up: Option<ResId>, v: int)
    requires ResourcesOk(s) && Executed(s)
    ensures Executed(Perform(s, Create(up, v)))
  {
    hide Within, Attach;
    ReplayWithMore(s.initial, s.trace, s.nextRes, v);
  }

  // ---------------------------------------------------------------- commit and abort

  lemma CompleteKeeps(s: Table, t: TxnId, rs: set<ResId>)
    requires LocksOk(s) && Within(s, rs)
    ensures var s' := LockTable.Apply(s, Complete(t));
            && LocksOk(s') && Within(s', rs)
            && s'.completed == s.completed + {t} && s'.parent == s.parent
            && (forall e: Event :: CoveredBy(s, e) && e.txn !in s'.completed ==> CoveredBy(s', e))
  {
    var step := Complete(t);
    var s' := LockTable.Apply(s, step);
    StepAround(s, step);
    StepKeepsInv(s, step);
    StepKeepsHierarchy(s, step);
    CompleteIsWithin(s, t, rs);
    hide LockTable.Apply;
    forall e: Event | CoveredBy(s, e) && e.txn !in s'.completed ensures CoveredBy(s', e) {
      if !e.Done? {
        StepRetains(s, step, e.txn, e.res);
      }
    }
  }

  lemma CompleteIsWithin(s: Table, t: TxnId, rs: set<ResId>)
    requires Within(s, rs)
    ensures Within(LockTable.Apply(s, Complete(t)), rs)
  {
    hide RefilledLocks, RefilledQueue, HeldAfterRelease, Receivers;
  }

  lemma FinishKeepsOk(s: Sys, t: TxnId, commit: bool)
    requires SysOk(s) && t in s.active
    ensures SysOk(Perform(s, Finish(t, commit)))
  {
    hide LockTable.Apply, LocksOk, StrictUnder, Executed, CoveredBy, Completions, Within, LogAgrees, TraceOk,
      Covered, TxnsOk, QuietAfterDone;
    CompleteKeeps(s.locks, t, s.store.Keys);
    FinishLogs(s, t, commit);
    FinishReplays(s, t, commit);
    FinishTrace(s, t, commit);
    FinishCounts(s, t, commit);
    FinishCovered(s, t, commit);
  }

  lemma FinishCounts(s: Sys, t: TxnId, commit: bool)
    requires TxnsOk(s) && t in s.active
    ensures TxnsOk(Perform(s, Finish(t, commit)))
  {
    StepAround(s.locks, Complete(t));
    hide LockTable.Apply;
    assert |s.active| == |s.active - {t}| + 1;
  }

  lemma FinishCovered(s: Sys, t: TxnId, commit: bool)
    requires TxnsOk(s) && Covered(s) && LocksOk(s.locks) && Within(s.locks, s.store.Keys)
    ensures Covered(Perform(s, Finish(t, commit)))
  {
    var s' := Perform(s, Finish(t, commit));
    hide LockTable.Apply, CoveredBy, Covered, LocksOk, Within;
    CompleteKeeps(s.locks, t, s.store.Keys);
    DoneIsCovered(s'.locks, t, commit);
    CoveredSnoc(s, s', Done(t, commit));
  }

  lemma DoneIsCovered(locks: Table, t: TxnId, commit: bool)
    ensures CoveredBy(locks, Done(t, commit))
  {
  }

  lemma FinishTrace(s: Sys, t: TxnId, commit: bool)
    requires SysOk(s) && t in s.active
    ensures var s' := Perform(s, Finish(t, commit)); TraceOk(s') && StrictUnder(s'.locks.parent, s'.trace)
  {
    var s' := Perform(s, Finish(t, commit));
    StepAround(s.locks, Complete(t));
    hide LockTable.Apply;
    TraceSnoc(s, s', Done(t, commit));
    StrictSnoc(s.locks.parent, s.trace, Done(t, commit));
  }

  lemma FinishReplays(s: Sys, t: TxnId, commit: bool)
    requires Executed(s)
    ensures Executed(Perform(s, Finish(t, commit)))
  {
    hide LockTable.Apply;
    ReplaySnoc(Some(s.initial), s.trace, Done(t, commit));
  }

  /** A transaction that is still active has no COMMIT in the log yet, so the count grows by one. */
  lemma NotCommittedYet(s: Sys, t: TxnId)
    requires LogAgrees(s) && TxnsOk(s) && TraceOk(s) && t in s.active
    ensures t !in CommittedIn(s.log)
  {
    hide Completions, CommitTxns, CommittedIn, ActiveIn, DataEntries, Updates, QuietAfterDone;
    CommitIsCompletion(s.trace, t);
  }

  lemma FinishLogs(s: Sys, t: TxnId, commit: bool)
    requires LogAgrees(s) && TxnsOk(s) && TraceOk(s) && t in s.active
    ensures LogAgrees(Perform(s, Finish(t, commit)))
  {
    hide LockTable.Apply, Completions, CommitTxns, CommittedIn, ActiveIn, DataEntries, Updates, TraceOk, TxnsOk;
    NotCommittedYet(s, t);
    var e := Entry(t, if commit then COMMIT else ABORT);
    CompletionsSnoc(s.trace, Done(t, commit));
    AppendEntry(s.log, e);
    DataSnoc(s.log, e);
    assert !IsDataModification(e.kind);
    assert |CommittedIn(s.log) + {t}| == |CommittedIn(s.log)| + 1;
  }

  // ---------------------------------------------------------------- every run

  lemma ActionKeepsOk(s: Sys, a: Action)
    requires SysOk(s) && Allowed(s, a)
    ensures SysOk(Perform(s, a))
  {
    hide SysOk;
    match a
    case Begin => BeginKeepsOk(s);
    case Create(up, v) => CreateKeepsOk(s, up, v);
    case Access(t, r, w, steps, ok) => AccessKeepsOk(s, t, r, w, steps, ok);
    case Finish(t, commit) => FinishKeepsOk(s, t, commit);
    case Checkpoint => CheckpointKeepsOk(s);
    case Disown(t) => DisownKeepsOk(s, t);
  }

  lemma StartOk()
    ensures SysOk(START)
  {
    EmptyInv();
    assert START.log == [] && START.trace == [];
    assert Acyclic(EMPTY.parent);
  }

  /** Every state any run reaches satisfies the invariant. */
  lemma {:induction false} RunKeepsOk(actions: seq<Action>)
    requires IsRun(actions)
    ensures SysOk(After(actions))
    decreases |actions|
  {
    if actions == [] {
      StartOk();
    } else {
      RunKeepsOk(actions[..|actions| - 1]);
      ActionKeepsOk(After(actions[..|actions| - 1]), actions[|actions| - 1]);
    }
  }
}
