/** The log file of an earlier start of the program: `older` is what the file held, the run's own log follows.
    Exactly when analysis, undo and redo of the whole file still say what this run did. */
module OlderLogs {
  import opened AscendingIds
  import opened Engine
  import opened EngineSafety
  import opened EngineTheorems
  import opened Histories
  import opened Ids
  import opened LockModes
  import opened LockTable
  import opened LockHierarchy
  import opened LogRecords
  import opened Recovery
  import opened Wrappers

  // ---------------------------------------------------------------- one log after another

  ghost predicate Touches(e: Entry) {
    e.kind == BEGIN || e.kind == COMMIT || e.kind == ABORT
  }

  /** The ids with a BEGIN, COMMIT or ABORT record. */
  ghost function Touched(log: seq<Entry>): set<TxnId> {
    if log == [] then {}
    else Touched(log[..|log| - 1]) + (if Touches(log[|log| - 1]) then {log[|log| - 1].txn} else {})
  }

  lemma TouchedSnoc(log: seq<Entry>, e: Entry)
    ensures Touched(log + [e]) == Touched(log) + (if Touches(e) then {e.txn} else {})
  {
    assert (log + [e])[..|log|] == log;
  }

  /** A later log overrides an earlier one for the ids it touches and leaves the others alone. */
  lemma {:induction false} AnalysisOfBoth(a: seq<Entry>, b: seq<Entry>)
    ensures ActiveIn(a + b) == ActiveIn(b) + (ActiveIn(a) - Touched(b))
    ensures CommittedIn(a + b) == CommittedIn(a) + CommittedIn(b)
    ensures DataEntries(a + b) == DataEntries(a) + DataEntries(b)
    ensures ActiveIn(b) <= Touched(b)
    decreases |b|
  {
    if b == [] {
      assert a + b == a && DataEntries(a) + [] == DataEntries(a);
    } else {
      var n := |b| - 1;
      var front, e := b[..n], b[n];
      AnalysisOfBoth(a, front);
      assert b == front + [e] && a + b == (a + front) + [e];
      hide ActiveIn, CommittedIn, DataEntries, Touched;
      AppendEntry(front, e);
      AppendEntry(a + front, e);
      DataSnoc(front, e);
      DataSnoc(a + front, e);
      TouchedSnoc(front, e);
      var data := DataEntries(a) + DataEntries(front);
      assert data + [] == data && DataEntries(front) + [] == DataEntries(front);
      assert data + [e] == DataEntries(a) + (DataEntries(front) + [e]);
    }
  }

  /** The ids an earlier start left open that recovery has closed. */
  ghost function Disowned(actions: seq<Action>): set<TxnId> {
    if actions == [] then {}
    else
      var a := actions[|actions| - 1];
      Disowned(actions[..|actions| - 1]) + (if a.Disown? then {a.txn} else {})
  }

  /** The ids a run knows: those it gave out and those it closed for an earlier start. */
  ghost predicate Known(actions: seq<Action>, t: TxnId) {
    1 <= t < After(actions).nextTxn || t in Disowned(actions)
  }

  lemma ActionTouches(s: Sys, a: Action, t: TxnId)
    requires TxnsOk(s) && Allowed(s, a)
    ensures var s' := Perform(s, a);
            (t in Touched(s'.log) || 1 <= t < s'.nextTxn)
              <==> (|| t in Touched(s.log) || 1 <= t < s.nextTxn
                    || (a.Begin? && t == s.nextTxn) || (a.Disown? && t == a.txn))
    ensures a.Begin? ==> s.nextTxn in Touched(Perform(s, a).log)
    ensures a.Disown? ==> a.txn in Touched(Perform(s, a).log)
    ensures Touched(s.log) <= Touched(Perform(s, a).log)
  {
    hide Run, LockTable.Apply, Serves, Plan, Touched;
    match a
    case Begin => TouchedSnoc(s.log, Entry(s.nextTxn, BEGIN));
    case Create(_, _) =>
    case Access(x, r, w, _, ok) =>
      if ok && w.Some? {
        TouchedSnoc(s.log, Entry(x, UPDATE));
      }
    case Finish(x, commit) => TouchedSnoc(s.log, Entry(x, if commit then COMMIT else ABORT));
    case Checkpoint => TouchedSnoc(s.log, Entry(0, CHECKPOINT));
    case Disown(x) => TouchedSnoc(s.log, Entry(x, ABORT));
  }

  lemma NextTxnAfter(s: Sys, a: Action)
    ensures Perform(s, a).nextTxn == if a.Begin? then s.nextTxn + 1 else s.nextTxn
  {
  }

  /** A run's log has a BEGIN, COMMIT or ABORT record for exactly the ids the run knows. */
  lemma {:induction false} TouchedIsKnown(actions: seq<Action>, t: TxnId)
    requires IsRun(actions)
    ensures t in Touched(After(actions).log) <==> Known(actions, t)
    decreases |actions|
  {
    hide Perform, Allowed, Touched, TxnsOk;
    if actions == [] {
      NothingTouched();
    } else {
      var n := |actions| - 1;
      TouchedIsKnown(actions[..n], t);
      TxnsAreOk(actions[..n]);
      ActionTouches(After(actions[..n]), actions[n], t);
      NextTxnAfter(After(actions[..n]), actions[n]);
    }
  }

  lemma NothingTouched()
    ensures Touched([]) == {}
  {
  }

  lemma TxnsAreOk(actions: seq<Action>)
    requires IsRun(actions)
    ensures TxnsOk(After(actions))
  {
    RunKeepsOk(actions);
  }

  // ---------------------------------------------------------------- analysis of the whole file

  lemma OwnLogAgrees(actions: seq<Action>)
    requires IsRun(actions)
    ensures LogAgrees(After(actions))
  {
    RunKeepsOk(actions);
  }

  /** What analysis of the whole file finds incomplete: the active ids, and what an earlier start left open
      unless this run knows the id. */
  lemma IncompleteInFile(older: seq<Entry>, actions: seq<Action>, t: TxnId)
    requires IsRun(actions)
    ensures t in ActiveIn(older + After(actions).log)
       <==> t in After(actions).active || (t in ActiveIn(older) && !Known(actions, t))
  {
    OwnLogAgrees(actions);
    AnalysisOfBoth(older, After(actions).log);
    TouchedIsKnown(actions, t);
    hide After, IsRun, ActiveIn, Touched, Known, CommittedIn, DataEntries, Updates, CommitTxns;
  }

  /** The file and memory agree on what is incomplete if and only if this run knows every id an earlier start
      left open: it gave the id out again, or recovery closed it. */
  lemma IncompleteAgreesIff(older: seq<Entry>, actions: seq<Action>)
    requires IsRun(actions)
    ensures ActiveIn(older + After(actions).log) == After(actions).active
       <==> forall t :: t in ActiveIn(older) ==> Known(actions, t)
  {
    hide After, IsRun, ActiveIn, Known;
    var s := After(actions);
    forall t ensures t in ActiveIn(older + s.log) <==> t in s.active || (t in ActiveIn(older) && !Known(actions, t))
             ensures t in s.active ==> Known(actions, t) {
      IncompleteInFile(older, actions, t);
      if t in s.active {
        ActiveIsKnown(actions, t);
      }
    }
  }

  lemma ActiveIsKnown(actions: seq<Action>, t: TxnId)
    requires IsRun(actions) && t in After(actions).active
    ensures Known(actions, t)
  {
    TxnsAreOk(actions);
  }

  /** The committed ids of the file are the run's own, and as many as it counted, if and only if every id an
      earlier start committed was committed by this run as well. */
  lemma CommittedAgreesIff(older: seq<Entry>, actions: seq<Action>)
    requires IsRun(actions)
    ensures var s := After(actions);
            && (CommittedIn(older + s.log) == CommitTxns(s.trace) <==> CommittedIn(older) <= CommitTxns(s.trace))
            && (|CommittedIn(older + s.log)| == s.committed <==> CommittedIn(older) <= CommitTxns(s.trace))
  {
    OwnLogAgrees(actions);
    var s := After(actions);
    AnalysisOfBoth(older, s.log);
    hide After, IsRun, ActiveIn, Touched, CommittedIn, DataEntries, Updates, CommitTxns;
    var old', own := CommittedIn(older), CommittedIn(s.log);
    if |old' + own| == |own| {
      SameSize(own, old' + own);
    }
    if old' <= own {
      assert old' + own == own;
    }
  }

  lemma SameSize(a: set<TxnId>, b: set<TxnId>)
    requires a <= b && |a| == |b|
    ensures a == b
  {
    assert b == a + (b - a);
    assert |b| == |a| + |b - a|;
  }

  // ---------------------------------------------------------------- undo and recovery of the whole file

  lemma AbortsTell(a: set<TxnId>, b: set<TxnId>)
    requires AbortsOf(Ascending(a)) == AbortsOf(Ascending(b))
    ensures a == b
  {
    AscendingIsSorted(a);
    AscendingIsSorted(b);
    hide Ascending;
    var x, y := Ascending(a), Ascending(b);
    forall i | 0 <= i < |x| ensures x[i] == y[i] {
      assert AbortsOf(x)[i] == AbortsOf(y)[i];
    }
    assert x == y;
  }

  /** Undo writes ABORT records for exactly the active ids under the same condition. */
  lemma UndoAgreesIff(older: seq<Entry>, actions: seq<Action>)
    requires IsRun(actions)
    ensures UndoEntries(older + After(actions).log) == AbortsOf(Ascending(After(actions).active))
       <==> forall t :: t in ActiveIn(older) ==> Known(actions, t)
  {
    IncompleteAgreesIff(older, actions);
    hide After, IsRun, ActiveIn, Known, Ascending;
    if UndoEntries(older + After(actions).log) == AbortsOf(Ascending(After(actions).active)) {
      AbortsTell(ActiveIn(older + After(actions).log), After(actions).active);
    }
  }

  /** RECOVER on a file: each incomplete id in ascending order, ended if it is active, disowned if an earlier
      start left it. */
  ghost function RecoverActions(active: set<TxnId>, ids: seq<TxnId>): (actions: seq<Action>)
    ensures |actions| == |ids|
    ensures forall i :: 0 <= i < |ids| ==>
              actions[i] == if ids[i] in active then Finish(ids[i], false) else Disown(ids[i])
  {
    seq(|ids|, i requires 0 <= i < |ids| => if ids[i] in active then Finish(ids[i], false) else Disown(ids[i]))
  }

  ghost function Among(ids: seq<TxnId>, some: set<TxnId>): seq<TxnId> {
    if ids == [] then []
    else
      var t := ids[|ids| - 1];
      Among(ids[..|ids| - 1], some) + (if t in some then [t] else [])
  }

  lemma AmongSnoc(ids: seq<TxnId>, t: TxnId, some: set<TxnId>)
    ensures Among(ids + [t], some) == Among(ids, some) + (if t in some then [t] else [])
  {
    assert (ids + [t])[..|ids|] == ids;
  }

  lemma {:induction false} AmongConcat(a: seq<TxnId>, b: seq<TxnId>, some: set<TxnId>)
    ensures Among(a + b, some) == Among(a, some) + Among(b, some)
    decreases |b|
  {
    if b == [] {
      assert a + b == a && Among(a, some) + [] == Among(a, some);
    } else {
      var n := |b| - 1;
      AmongConcat(a, b[..n], some);
      assert a + b == (a + b[..n]) + [b[n]] && b == b[..n] + [b[n]];
      AmongSnoc(a + b[..n], b[n], some);
      AmongSnoc(b[..n], b[n], some);
    }
  }

  lemma {:induction false} AmongWithout(ids: seq<TxnId>, some: set<TxnId>, m: TxnId)
    requires m !in ids
    ensures Among(ids, some) == Among(ids, some - {m})
  {
    if ids != [] {
      var n := |ids| - 1;
      assert ids[n] in ids;
      AmongWithout(ids[..n], some, m);
    }
  }

  /** The active ones among ascending ids are the active ids, ascending. */
  lemma {:induction false} AmongAscending(ids: set<TxnId>, some: set<TxnId>)
    requires some <= ids
    ensures Among(Ascending(ids), some) == Ascending(some)
    decreases |ids|
  {
    if ids == {} {
      NoneAscending();
    } else {
      LeastExists(ids);
      var m :| IsLeast(m, ids);
      AscendingStep(ids, m);
      var rest := Ascending(ids - {m});
      AscendingIsSorted(ids - {m});
      AmongConcat([m], rest, some);
      assert Among([m], some) == if m in some then [m] else [] by {
        AmongSnoc([], m, some);
        assert [] + [m] == [m];
      }
      if m in some {
        AscendingStep(some, m);
        AmongWithout(rest, some, m);
        AmongAscending(ids - {m}, some - {m});
      } else {
        AmongAscending(ids - {m}, some);
      }
    }
  }

  /** What that leaves of `s`. */
  ghost predicate Recovered(s: Sys, s': Sys, ids: seq<TxnId>) {
    var ended := Among(ids, s.active);
    && s'.active == s.active - Members(ids) && s'.aborted == s.aborted + |ended|
    && s'.committed == s.committed && s'.nextTxn == s.nextTxn
    && s'.nextRes == s.nextRes && s'.store == s.store && s'.initial == s.initial
    && s'.locks == CompleteAll(s.locks, ended)
    && s'.log == s.log + AbortsOf(ids)
  }

  lemma RecoverOneMore(s: Sys, mid: Sys, ids: seq<TxnId>, t: TxnId)
    requires Recovered(s, mid, ids)
    ensures Recovered(s, Perform(mid, if t in s.active then Finish(t, false) else Disown(t)), ids + [t])
  {
    hide LockTable.Apply, Among, Members;
    MembersSnoc(ids, t);
    AmongSnoc(ids, t, s.active);
    var ended := Among(ids, s.active);
    assert (ended + [t])[..|ended|] == ended && ended + [] == ended;
    assert s.log + AbortsOf(ids + [t]) == (s.log + AbortsOf(ids)) + [Entry(t, ABORT)];
  }

  lemma NothingRecovered(actions: seq<Action>, s: Sys)
    ensures actions + RecoverActions(s.active, []) == actions && Recovered(s, s, [])
  {
    assert s.log + AbortsOf([]) == s.log;
    assert s.active - Members([]) == s.active;
  }

  lemma {:induction false} RecoverRuns(actions: seq<Action>, ids: seq<TxnId>)
    requires IsRun(actions) && Distinct(ids)
    ensures var all := actions + RecoverActions(After(actions).active, ids);
            IsRun(all) && Recovered(After(actions), After(all), ids)
    decreases |ids|
  {
    hide Perform, After, IsRun, Recovered;
    var s := After(actions);
    if ids == [] {
      NothingRecovered(actions, s);
    } else {
      var n := |ids| - 1;
      var last := if ids[n] in s.active then Finish(ids[n], false) else Disown(ids[n]);
      var before := actions + RecoverActions(s.active, ids[..n]);
      RecoverRuns(actions, ids[..n]);
      assert ids == ids[..n] + [ids[n]];
      assert actions + RecoverActions(s.active, ids) == before + [last];
      RunAction(before, last);
      assert Allowed(After(before), last) by {
        RecoveredActive(s, After(before), ids[..n], ids[n]);
      }
      RecoverOneMore(s, After(before), ids[..n], ids[n]);
    }
  }

  lemma RecoveredActive(s: Sys, s': Sys, ids: seq<TxnId>, t: TxnId)
    requires Recovered(s, s', ids) && t !in ids
    ensures t in s'.active <==> t in s.active
  {
  }

  /** RECOVER on a file that an earlier start has written: every active transaction is ended in ascending order,
      the ABORT records are those of undo on the whole file, and nothing in the file is incomplete afterwards. */
  lemma RecoverOnFile(older: seq<Entry>, actions: seq<Action>)
    requires IsRun(actions)
    ensures var s := After(actions);
            var ids := Ascending(ActiveIn(older + s.log));
            var all := actions + RecoverActions(s.active, ids);
            var s' := After(all);
            && IsRun(all) && s'.active == {}
            && s'.locks == CompleteAll(s.locks, Ascending(s.active)) && s'.aborted == s.aborted + |s.active|
            && s'.committed == s.committed && s'.nextTxn == s.nextTxn && s'.nextRes == s.nextRes && s'.store == s.store
            && s'.initial == s.initial && s'.log == s.log + UndoEntries(older + s.log)
            && ActiveIn(older + s'.log) == {}
  {
    hide After, IsRun, Ascending, ActiveIn, Recovered;
    var s := After(actions);
    var open := ActiveIn(older + s.log);
    forall t | t in s.active ensures t in open {
      IncompleteInFile(older, actions, t);
    }
    AscendingIsSorted(open);
    RecoverRuns(actions, Ascending(open));
    RecoveredFile(older, s, After(actions + RecoverActions(s.active, Ascending(open))));
  }

  lemma RecoveredFile(older: seq<Entry>, s: Sys, s': Sys)
    requires var open := ActiveIn(older + s.log); s.active <= open && Recovered(s, s', Ascending(open))
    ensures s'.active == {} && s'.locks == CompleteAll(s.locks, Ascending(s.active))
    ensures s'.aborted == s.aborted + |s.active| && s'.committed == s.committed && s'.nextTxn == s.nextTxn
    ensures s'.nextRes == s.nextRes && s'.store == s.store && s'.initial == s.initial
    ensures s'.log == s.log + UndoEntries(older + s.log) && ActiveIn(older + s'.log) == {}
  {
    var open := ActiveIn(older + s.log);
    var ids := Ascending(open);
    hide Ascending, ActiveIn, Among, CommittedIn, CompleteAll;
    AscendingIsSorted(open);
    AscendingLength(s.active);
    AmongAscending(open, s.active);
    assert Members(ids) == open;
    AbortsEnd(older + s.log, ids);
    assert (older + s.log) + AbortsOf(ids) == older + (s.log + AbortsOf(ids));
  }

  lemma RecoverTells(active: set<TxnId>, ids: seq<TxnId>, own: seq<TxnId>)
    requires RecoverActions(active, ids) == AbortAll(own)
    ensures ids == own
  {
    assert |ids| == |own|;
    forall i | 0 <= i < |ids| ensures ids[i] == own[i] {
      assert RecoverActions(active, ids)[i] == AbortAll(own)[i];
    }
  }

  /** RECOVER is no more than aborting the active transactions under the same condition. */
  lemma RecoverIsAbortingIff(older: seq<Entry>, actions: seq<Action>)
    requires IsRun(actions)
    ensures var s := After(actions);
            (RecoverActions(s.active, Ascending(ActiveIn(older + s.log))) == AbortAll(Ascending(s.active)))
              <==> (forall t :: t in ActiveIn(older) ==> Known(actions, t))
  {
    IncompleteAgreesIff(older, actions);
    hide After, IsRun, ActiveIn, Known, Ascending;
    var s := After(actions);
    var open := ActiveIn(older + s.log);
    AscendingIsSorted(open);
    AscendingIsSorted(s.active);
    if RecoverActions(s.active, Ascending(open)) == AbortAll(Ascending(s.active)) {
      RecoverTells(s.active, Ascending(open), Ascending(s.active));
      assert open == s.active;
    }
    if open == s.active {
      assert RecoverActions(s.active, Ascending(s.active)) == AbortAll(Ascending(s.active));
    }
  }

  /** Recovery makes file and memory agree; once they agree they agree for ever. */
  lemma {:induction false} AgreementLasts(older: seq<Entry>, a: seq<Action>, b: seq<Action>)
    requires IsRun(b) && a <= b && ActiveIn(older + After(a).log) == After(a).active
    ensures ActiveIn(older + After(b).log) == After(b).active
  {
    PrefixRun(a, b);
    IncompleteAgreesIff(older, a);
    IncompleteAgreesIff(older, b);
    hide After, IsRun, ActiveIn, Known;
    forall t | t in ActiveIn(older) ensures Known(b, t) {
      assert Known(a, t);
      KnownLasts(a, b, t);
    }
  }

  lemma {:induction false} PrefixRun(a: seq<Action>, b: seq<Action>)
    requires IsRun(b) && a <= b
    ensures IsRun(a)
    decreases |b|
  {
    hide Allowed, After;
    if |a| < |b| {
      PrefixRun(a, b[..|b| - 1]);
    } else {
      assert a == b;
    }
  }

  lemma {:induction false} KnownLasts(a: seq<Action>, b: seq<Action>, t: TxnId)
    requires a <= b && Known(a, t)
    ensures Known(b, t)
    decreases |b|
  {
    hide Perform;
    if |a| < |b| {
      var n := |b| - 1;
      KnownLasts(a, b[..n], t);
      NextTxnAfter(After(b[..n]), b[n]);
    } else {
      assert a == b;
    }
  }

  // ---------------------------------------------------------------- redo of the whole file

  lemma {:induction false} KeepConcat(a: seq<Entry>, b: seq<Entry>, ids: set<TxnId>)
    ensures Keep(a + b, ids) == Keep(a, ids) + Keep(b, ids)
    decreases |b|
  {
    if b == [] {
      assert a + b == a && Keep(a, ids) + [] == Keep(a, ids);
    } else {
      var n := |b| - 1;
      KeepConcat(a, b[..n], ids);
      assert a + b == (a + b[..n]) + [b[n]] && b == b[..n] + [b[n]];
      KeepSnoc(a + b[..n], b[n], ids);
      KeepSnoc(b[..n], b[n], ids);
    }
  }

  /** Keeping for more ids keeps at least as much, and the same only if no further entry has one of them. */
  lemma {:induction false} KeepMore(es: seq<Entry>, some: set<TxnId>, more: set<TxnId>)
    requires some <= more
    ensures |Keep(es, some)| <= |Keep(es, more)|
    ensures |Keep(es, some)| == |Keep(es, more)| <==> forall e :: e in es && e.txn in more ==> e.txn in some
    ensures (forall e :: e in es && e.txn in more ==> e.txn in some) ==> Keep(es, some) == Keep(es, more)
  {
    if es != [] {
      var n := |es| - 1;
      KeepMore(es[..n], some, more);
      assert es == es[..n] + [es[n]];
      assert forall e :: e in es <==> e in es[..n] || e == es[n];
    }
  }

  /** The redo list of the whole file is the run's own list of committed writes if and only if the file brings
      no data record of a committed id along, and no id that only an earlier start committed has written in this
      run. */
  lemma RedoAgreesIff(older: seq<Entry>, actions: seq<Action>, log: seq<LogRecord>)
    requires IsRun(actions) && Strip(log) == older + After(actions).log
    ensures var s := After(actions);
            var before, own := CommittedIn(older), CommitTxns(s.trace);
            (Strip(RedoOf(log, CommittedIn(Strip(log)))) == Keep(Updates(s.trace), own))
              <==> (&& Keep(DataEntries(older), before + own) == []
                    && forall e :: e in Updates(s.trace) && e.txn in before ==> e.txn in own)
  {
    var s := After(actions);
    var before, own := CommittedIn(older), CommitTxns(s.trace);
    var theirs, mine := DataEntries(older), Updates(s.trace);
    OwnLogAgrees(actions);
    AnalysisOfBoth(older, s.log);
    RedoIsKept(log, CommittedIn(Strip(log)));
    hide After, IsRun, ActiveIn, CommittedIn, DataEntries, Updates, CommitTxns, Touched, Keep, RedoOf;
    KeepConcat(theirs, mine, before + own);
    KeepMore(mine, own, before + own);
    if Keep(theirs, before + own) == [] {
      assert [] + Keep(mine, before + own) == Keep(mine, before + own);
    }
  }

  // ---------------------------------------------------------------- a file that misleads recovery

  /** An earlier start committed its transaction 1.  This start's transaction 1 writes and aborts; redo lists the
      aborted write, because ids start at 1 again. */
  lemma AbortedWriteIsRedone() returns (older: seq<Entry>, actions: seq<Action>)
    ensures IsRun(actions) && After(actions).active == {} && CommitTxns(After(actions).trace) == {}
    ensures var file := older + After(actions).log;
            Keep(DataEntries(file), CommittedIn(file)) == [Entry(1, UPDATE)]
  {
    older := [Entry(1, BEGIN), Entry(1, COMMIT)];
    var steps := [Request(1, 1, EXCLUSIVE, None)];
    var a1, a2, a3, a4 := Action.Begin, Create(None, 0), Access(1, 1, Some(5), steps, true), Finish(1, false);
    var s0 := START;
    var s1 := Perform(s0, a1);
    var s2 := Perform(s1, a2);
    FirstWriteIsGranted(steps[0]);
    assert Allowed(s2, a3);
    var s3 := Perform(s2, a3);
    assert s3.active == {1} && s3.log == [Entry(1, BEGIN), Entry(1, UPDATE)] && s3.trace == [Write(1, 1, 5)];
    var s4 := Perform(s3, a4);
    actions := [a1, a2, a3, a4];
    FourActions(a1, a2, a3, a4);
    assert s4.trace == [Write(1, 1, 5)] + [Done(1, false)];
    CompletionsSnoc([Write(1, 1, 5)], Done(1, false));
    CompletionsSnoc([], Write(1, 1, 5));
    assert [] + [Write(1, 1, 5)] == [Write(1, 1, 5)];
    MisleadingFile(older, s4.log);
  }

  lemma FirstWriteIsGranted(step: Step)
    requires step == Request(1, 1, EXCLUSIVE, None)
    ensures Serves(EMPTY, 1, Plan(EMPTY.parent, 1, EXCLUSIVE), [step], true)
  {
    assert Climb(EMPTY.parent, 1, {}) == [];
    assert Plan(EMPTY.parent, 1, EXCLUSIVE) == [(1, EXCLUSIVE)];
    var none: seq<Step>, steps := [], [step];
    assert steps[..0] == none && Run(EMPTY, none) == EMPTY;
    assert LocksOn(EMPTY, 1) == multiset{} && !Holds(EMPTY, 1, 1);
    assert Enabled(EMPTY, step) && Fits(LocksOn(EMPTY, 1), EXCLUSIVE);
    assert Granted(EMPTY, step);
    assert Climbed(EMPTY, 1, [(1, EXCLUSIVE)], none);
    assert Climbed(EMPTY, 1, [(1, EXCLUSIVE)], steps);
  }

  lemma FourActions(a: Action, b: Action, c: Action, d: Action)
    ensures var s1 := Perform(START, a); var s2 := Perform(s1, b); var s3 := Perform(s2, c);
            && After([a, b, c, d]) == Perform(s3, d)
            && (Allowed(START, a) && Allowed(s1, b) && Allowed(s2, c) && Allowed(s3, d) ==> IsRun([a, b, c, d]))
  {
    hide Perform, Allowed;
    var r0: seq<Action> := [];
    assert IsRun(r0) && After(r0) == START;
    hide After, IsRun;
    assert r0 + [a] == [a] && [a] + [b] == [a, b] && [a, b] + [c] == [a, b, c] && [a, b, c] + [d] == [a, b, c, d];
    RunAction(r0, a);
    RunAction([a], b);
    RunAction([a, b], c);
    RunAction([a, b, c], d);
  }

  lemma MisleadingFile(older: seq<Entry>, log: seq<Entry>)
    requires older == [Entry(1, BEGIN), Entry(1, COMMIT)]
    requires log == [Entry(1, BEGIN), Entry(1, UPDATE)] + [Entry(1, ABORT)]
    ensures Keep(DataEntries(older + log), CommittedIn(older + log)) == [Entry(1, UPDATE)]
  {
    hide CommittedIn, DataEntries, Keep;
    var begin, commit, update, abort := Entry(1, BEGIN), Entry(1, COMMIT), Entry(1, UPDATE), Entry(1, ABORT);
    assert older == [begin] + [commit] && log == ([begin] + [update]) + [abort];
    DataOfBoth(older, log);
    DataOfBoth([begin], [commit]);
    DataOfBoth([begin] + [update], [abort]);
    DataOfBoth([begin], [update]);
    OneEntry(begin);
    OneEntry(commit);
    OneEntry(update);
    OneEntry(abort);
    assert DataEntries(older + log) == [update];
    assert 1 in CommittedIn(older + log);
    KeepSnoc([], update, CommittedIn(older + log));
    KeepNothing(CommittedIn(older + log));
    assert [] + [update] == [update];
  }

  lemma KeepNothing(ids: set<TxnId>)
    ensures Keep([], ids) == []
  {
  }

  lemma DataOfBoth(a: seq<Entry>, b: seq<Entry>)
    ensures DataEntries(a + b) == DataEntries(a) + DataEntries(b)
    ensures CommittedIn(a) + CommittedIn(b) == CommittedIn(a + b)
  {
    AnalysisOfBoth(a, b);
  }

  lemma OneEntry(e: Entry)
    ensures DataEntries([e]) == if IsDataModification(e.kind) then [e] else []
    ensures CommittedIn([e]) == if e.kind == COMMIT then {e.txn} else {}
  {
    AppendEntry([], e);
    DataSnoc([], e);
    assert [] + [e] == [e];
  }
}
