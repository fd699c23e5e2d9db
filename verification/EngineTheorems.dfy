/** What every run of the engine guarantees: serializability, strictness, agreement of log and memory, and
    recovery as aborting. */
module EngineTheorems {
  import opened AscendingIds
  import opened Engine
  import opened EngineSafety
  import opened Histories
  import opened Ids
  import opened LockTable
  import opened LockHierarchy
  import opened LogRecords
  import opened Recovery
  import opened Wrappers

  // ---------------------------------------------------------------- strictness and serializability

  lemma AboveItself(p: Parents, r: ResId)
    ensures Above(p, r, r)
  {
    assert IsChain(p, [r]);
  }

  /** Once a write has executed, no other transaction reads or writes that resource or any descendant of it
      until the writer completes; and nobody writes at or above a resource another uncompleted transaction
      has read. */
  lemma StrictnessInEveryRun(actions: seq<Action>, i: nat, j: nat)
    requires IsRun(actions)
    requires i < j < |After(actions).trace|
    ensures var s := After(actions);
            var a, b := s.trace[i], s.trace[j];
            && !a.Done? && !b.Done? && a.txn != b.txn
            && ((a.Write? && Above(s.locks.parent, a.res, b.res)) || (b.Write? && Above(s.locks.parent, b.res, a.res)))
            ==> exists k :: i < k < j && IsDone(s.trace[k], a.txn)
  {
    RunKeepsOk(actions);
    var s := After(actions);
    hide Above, After;
    if Clash(s.locks.parent, s.trace[i], s.trace[j]) && s.trace[i].txn != s.trace[j].txn {
      assert Separated(s.trace, i, j);
    }
  }

  lemma StrictUnderIsStrict(p: Parents, es: seq<Event>)
    requires StrictUnder(p, es)
    ensures Strict(es)
  {
    hide Separated, Above;
    forall i, j | 0 <= i < j < |es| && Conflict(es[i], es[j]) && es[i].txn != es[j].txn
      ensures Separated(es, i, j) {
      AboveItself(p, es[i].res);
      assert Clash(p, es[i], es[j]);
    }
  }

  ghost predicate ListsActive(s: Sys, rest: seq<TxnId>) {
    Distinct(rest) && forall t :: t in rest <==> t in s.active
  }

  lemma RunIsOrdered(actions: seq<Action>, rest: seq<TxnId>)
    requires IsRun(actions) && ListsActive(After(actions), rest)
    ensures var s := After(actions);
            Ordered(s.trace, Completions(s.trace) + rest) && Executed(s)
  {
    RunKeepsOk(actions);
    var s := After(actions);
    hide After, Ordered, Strict, QuietAfterDone, StrictUnder, Completions, Distinct, Executed;
    StrictUnderIsStrict(s.locks.parent, s.trace);
    assert forall t :: t in rest ==> t !in Completions(s.trace);
    StrictIsOrdered(s.trace, rest);
  }

  /** Replaying the transactions one after the other, in the order they completed and the active ones last
      in any order, gives every read the value it reported and leaves the same store.  Aborted transactions
      count like the others: nothing restores what they wrote. */
  lemma EveryRunIsSerializable(actions: seq<Action>, rest: seq<TxnId>)
    requires IsRun(actions) && ListsActive(After(actions), rest)
    ensures var s := After(actions);
            Replay(Some(s.initial), Serial(s.trace, Completions(s.trace) + rest)) == Some(s.store)
  {
    RunIsOrdered(actions, rest);
    var s := After(actions);
    hide After, Ordered, Completions;
    SerialEquivalent(Some(s.initial), s.trace, Completions(s.trace) + rest);
  }

  /** No path of conflicts comes back to where it started. */
  lemma EveryConflictGraphIsAcyclic(actions: seq<Action>, p: seq<TxnId>)
    requires IsRun(actions) && |p| >= 2 && ConflictPath(After(actions).trace, p)
    ensures p[0] != p[|p| - 1]
  {
    var s := After(actions);
    var rest := Ascending(s.active);
    AscendingIsSorted(s.active);
    hide After, Ascending;
    assert ListsActive(s, rest);
    RunIsOrdered(actions, rest);
    ConflictGraphAcyclic(s.trace, Completions(s.trace) + rest, p);
  }

  // ---------------------------------------------------------------- the log and memory

  /** The incomplete ids analysis would find are the active ones, the committed ones are as many as counted
      and are those whose commit was executed, and every id given out is active, committed or aborted. */
  lemma LogAgreesWithMemory(actions: seq<Action>)
    requires IsRun(actions)
    ensures var s := After(actions);
            && ActiveIn(s.log) == s.active
            && |CommittedIn(s.log)| == s.committed
            && CommittedIn(s.log) !! s.active
            && s.committed + s.aborted + |s.active| == s.nextTxn - 1
            && (forall t :: t in CommittedIn(s.log) <==> exists k :: 0 <= k < |s.trace| && s.trace[k] == Done(t, true))
  {
    RunKeepsOk(actions);
    var s := After(actions);
    hide After, LocksOk, StrictUnder, Executed, Within, CommittedIn, ActiveIn, Covered, QuietAfterDone;
    forall t ensures t in CommitTxns(s.trace) <==> exists k :: 0 <= k < |s.trace| && s.trace[k] == Done(t, true)
             ensures t in CommitTxns(s.trace) ==> t !in s.active {
      CommitsExact(s.trace, t);
      CommitIsCompletion(s.trace, t);
    }
  }

  lemma {:induction false} CommitsExact(es: seq<Event>, t: TxnId)
    ensures t in CommitTxns(es) <==> exists k :: 0 <= k < |es| && es[k] == Done(t, true)
  {
    if es != [] {
      var n := |es| - 1;
      CommitsExact(es[..n], t);
      assert forall k :: 0 <= k < n ==> es[..n][k] == es[k];
    }
  }

  ghost function Keep(es: seq<Entry>, committed: set<TxnId>): seq<Entry> {
    if es == [] then []
    else
      var e := es[|es| - 1];
      Keep(es[..|es| - 1], committed) + (if e.txn in committed then [e] else [])
  }

  lemma KeepSnoc(es: seq<Entry>, e: Entry, committed: set<TxnId>)
    ensures Keep(es + [e], committed) == Keep(es, committed) + (if e.txn in committed then [e] else [])
  {
    assert (es + [e])[..|es|] == es;
  }

  lemma {:induction false} RedoIsKept(log: seq<LogRecord>, committed: set<TxnId>)
    ensures Strip(RedoOf(log, committed)) == Keep(DataEntries(Strip(log)), committed)
    decreases |log|
  {
    if log != [] {
      var n := |log| - 1;
      var before, e := log[..n], Entry(log[n].txn, log[n].kind);
      RedoIsKept(before, committed);
      assert Strip(log) == Strip(before) + [e];
      var redo, data := RedoOf(before, committed), DataEntries(Strip(before));
      assert RedoOf(log, committed)
          == redo + (if e.txn in committed && IsDataModification(e.kind) then [log[n]] else []);
      hide RedoOf, DataEntries, Keep, IsDataModification;
      DataSnoc(Strip(before), e);
      KeepSnoc(data, e, committed);
      StripConcat(redo, [log[n]]);
      assert Strip([log[n]]) == [e];
      assert redo + [] == redo && data + [] == data && Keep(data, committed) + [] == Keep(data, committed);
    }
  }

  /** The redo list of recovery is exactly one update per executed write of a committed transaction, in the
      order the writes were executed. */
  lemma RedoIsCommittedWrites(actions: seq<Action>, log: seq<LogRecord>)
    requires IsRun(actions) && Strip(log) == After(actions).log
    ensures var s := After(actions);
            Strip(RedoOf(log, CommittedIn(Strip(log)))) == Keep(Updates(s.trace), CommitTxns(s.trace))
  {
    RunKeepsOk(actions);
    RedoIsKept(log, CommittedIn(Strip(log)));
  }

  // ---------------------------------------------------------------- recovery

  ghost function AbortAll(ids: seq<TxnId>): (actions: seq<Action>)
    ensures |actions| == |ids| && forall i :: 0 <= i < |ids| ==> actions[i] == Finish(ids[i], false)
  {
    seq(|ids|, i requires 0 <= i < |ids| => Finish(ids[i], false))
  }

  ghost function CompleteAll(locks: Table, ids: seq<TxnId>): Table {
    if ids == [] then locks
    else LockTable.Apply(CompleteAll(locks, ids[..|ids| - 1]), Complete(ids[|ids| - 1]))
  }

  /** What aborting `ids` one after the other leaves of `s`. */
  ghost predicate AllAborted(s: Sys, s': Sys, ids: seq<TxnId>) {
    && s'.active == s.active - Members(ids) && s'.aborted == s.aborted + |ids|
    && s'.committed == s.committed && s'.nextTxn == s.nextTxn
    && s'.nextRes == s.nextRes && s'.store == s.store && s'.initial == s.initial
    && s'.locks == CompleteAll(s.locks, ids)
    && s'.log == s.log + AbortsOf(ids)
  }

  lemma AbortOneMore(s: Sys, mid: Sys, ids: seq<TxnId>, t: TxnId)
    requires AllAborted(s, mid, ids)
    ensures AllAborted(s, Perform(mid, Finish(t, false)), ids + [t])
  {
    hide LockTable.Apply;
    MembersSnoc(ids, t);
    assert (ids + [t])[..|ids|] == ids;
    assert s.log + AbortsOf(ids + [t]) == (s.log + AbortsOf(ids)) + [Entry(t, ABORT)];
  }

  lemma AllAbortedActive(s: Sys, s': Sys, ids: seq<TxnId>)
    requires AllAborted(s, s', ids)
    ensures s'.active == s.active - Members(ids)
  {
  }

  lemma NothingAborted(actions: seq<Action>, s: Sys, ids: seq<TxnId>)
    requires ids == []
    ensures actions + AbortAll(ids) == actions && AllAborted(s, s, ids)
  {
    assert s.log + AbortsOf(ids) == s.log;
  }

  lemma {:induction false} AbortAllRuns(actions: seq<Action>, ids: seq<TxnId>)
    requires IsRun(actions) && Distinct(ids) && Members(ids) <= After(actions).active
    ensures IsRun(actions + AbortAll(ids))
    ensures AllAborted(After(actions), After(actions + AbortAll(ids)), ids)
    decreases |ids|
  {
    if ids == [] {
      NothingAborted(actions, After(actions), ids);
    } else {
      hide Perform, After, IsRun, AllAborted;
      var n := |ids| - 1;
      var last := Finish(ids[n], false);
      assert ids == ids[..n] + [ids[n]];
      MembersSnoc(ids[..n], ids[n]);
      AbortAllRuns(actions, ids[..n]);
      assert actions + AbortAll(ids) == (actions + AbortAll(ids[..n])) + [last];
      RunAction(actions + AbortAll(ids[..n]), last);
      assert Allowed(After(actions + AbortAll(ids[..n])), last) by {
        AllAbortedActive(After(actions), After(actions + AbortAll(ids[..n])), ids[..n]);
      }
      AbortOneMore(After(actions), After(actions + AbortAll(ids[..n])), ids[..n], ids[n]);
    }
  }

  /** RECOVER is aborting every active transaction in ascending order: the ABORT records that undo appends
      are exactly the ones those aborts would have written, and nothing stays active. */
  lemma RecoverIsAborting(actions: seq<Action>)
    requires IsRun(actions)
    ensures var s := After(actions);
            var ids := Ascending(s.active);
            var s' := After(actions + AbortAll(ids));
            && IsRun(actions + AbortAll(ids))
            && AllAborted(s, s', ids)
            && s'.active == {} && s'.log == s.log + UndoEntries(s.log)
  {
    RunKeepsOk(actions);
    var s := After(actions);
    var ids := Ascending(s.active);
    AscendingIsSorted(s.active);
    hide After, Ascending;
    assert Members(ids) == s.active;
    assert Distinct(ids);
    AbortAllRuns(actions, ids);
  }
}
