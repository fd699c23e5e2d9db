/** Analysis, redo and undo over the log, and what survives crashes during recovery itself. */
module Recovery {
  import opened AscendingIds
  import opened Decimal
  import opened Ids
  import opened LogRecords
  import opened LogFiles

  /** A log record without its time stamp. */
  datatype Entry = Entry(txn: TxnId, kind: LogType)

  ghost function Strip(log: seq<LogRecord>): (es: seq<Entry>)
    ensures |es| == |log| && forall i :: 0 <= i < |log| ==> es[i] == Entry(log[i].txn, log[i].kind)
  {
    seq(|log|, i requires 0 <= i < |log| => Entry(log[i].txn, log[i].kind))
  }

  lemma StripConcat(a: seq<LogRecord>, b: seq<LogRecord>)
    ensures Strip(a + b) == Strip(a) + Strip(b)
  {
  }

  // ---------------------------------------------------------------- analysis

  ghost function CommittedIn(log: seq<Entry>): set<TxnId> {
    if log == [] then {}
    else
      var e := log[|log| - 1];
      CommittedIn(log[..|log| - 1]) + (if e.kind == COMMIT then {e.txn} else {})
  }

  ghost function ActiveIn(log: seq<Entry>): set<TxnId> {
    if log == [] then {}
    else
      var e, before := log[|log| - 1], ActiveIn(log[..|log| - 1]);
      match e.kind
      case BEGIN => before + {e.txn}
      case COMMIT => before - {e.txn}
      case ABORT => before - {e.txn}
      case _ => before
  }

  ghost predicate Ends(e: Entry, t: TxnId) {
    e == Entry(t, COMMIT) || e == Entry(t, ABORT)
  }

  /** Position `i` begins `t` and nothing later ends it. */
  ghost predicate OpensForGood(log: seq<Entry>, i: int, t: TxnId) {
    0 <= i < |log| && log[i] == Entry(t, BEGIN) && forall j :: i < j < |log| ==> !Ends(log[j], t)
  }

  lemma AppendEntry(log: seq<Entry>, e: Entry)
    ensures CommittedIn(log + [e]) == CommittedIn(log) + (if e.kind == COMMIT then {e.txn} else {})
    ensures ActiveIn(log + [e]) == match e.kind
                                   case BEGIN => ActiveIn(log) + {e.txn}
                                   case COMMIT => ActiveIn(log) - {e.txn}
                                   case ABORT => ActiveIn(log) - {e.txn}
                                   case _ => ActiveIn(log)
  {
    assert (log + [e])[..|log|] == log;
  }

  lemma NothingIsActive()
    ensures CommittedIn([]) == {} && ActiveIn([]) == {}
  {
  }

  /** Committed are exactly the ids with a COMMIT record. */
  lemma {:induction false} CommittedExact(log: seq<Entry>, t: TxnId)
    ensures t in CommittedIn(log) <==> Entry(t, COMMIT) in log
  {
    if log != [] {
      var n := |log| - 1;
      CommittedExact(log[..n], t);
      assert log == log[..n] + [log[n]];
    }
  }

  /** Incomplete are exactly the ids with a BEGIN record that no later COMMIT or ABORT ends. */
  lemma {:induction false} ActiveExact(log: seq<Entry>, t: TxnId)
    ensures t in ActiveIn(log) <==> exists i :: OpensForGood(log, i, t)
  {
    if log != [] {
      var n := |log| - 1;
      var before := log[..n];
      ActiveExact(before, t);
      if log[n] == Entry(t, BEGIN) {
        assert OpensForGood(log, n, t);
      } else if !Ends(log[n], t) && t in ActiveIn(before) {
        var i :| OpensForGood(before, i, t);
        assert OpensForGood(log, i, t);
      }
      if exists i :: OpensForGood(log, i, t) && i < n {
        var i :| OpensForGood(log, i, t) && i < n;
        assert !Ends(log[n], t);
        assert forall j :: i < j < n ==> log[j] == before[j];
        assert OpensForGood(before, i, t);
      }
    }
  }

  /** An id is both committed and incomplete exactly when it was begun again, for good, after its COMMIT. */
  lemma BothIffBegunAgain(log: seq<Entry>, t: TxnId)
    ensures t in CommittedIn(log) && t in ActiveIn(log)
       <==> exists c, i :: 0 <= c < i && OpensForGood(log, i, t) && log[c] == Entry(t, COMMIT)
  {
    CommittedExact(log, t);
    ActiveExact(log, t);
    if t in CommittedIn(log) && t in ActiveIn(log) {
      var i :| OpensForGood(log, i, t);
      var c :| 0 <= c < |log| && log[c] == Entry(t, COMMIT);
      assert c < i;
    }
  }

  // ---------------------------------------------------------------- redo

  predicate IsDataModification(kind: LogType) {
    kind == INSERT || kind == UPDATE || kind == DELETE
  }

  ghost function RedoOf(log: seq<LogRecord>, committed: set<TxnId>): seq<LogRecord> {
    if log == [] then []
    else
      var r := log[|log| - 1];
      RedoOf(log[..|log| - 1], committed) + (if r.txn in committed && IsDataModification(r.kind) then [r] else [])
  }

  /** Redo, record by record: what a committed transaction inserted, updated or deleted. */
  lemma RedoTakes(log: seq<LogRecord>, r: LogRecord, committed: set<TxnId>)
    ensures RedoOf([], committed) == []
    ensures RedoOf(log + [r], committed)
         == RedoOf(log, committed)
            + (if r.txn in committed && (r.kind == INSERT || r.kind == UPDATE || r.kind == DELETE) then [r] else [])
  {
    assert (log + [r])[..|log|] == log;
  }

  lemma {:induction false} RedoIgnoresAborts(log: seq<LogRecord>, aborts: seq<LogRecord>, committed: set<TxnId>)
    requires forall r :: r in aborts ==> r.kind == ABORT
    ensures RedoOf(log + aborts, committed) == RedoOf(log, committed)
    decreases |aborts|
  {
    if aborts == [] {
      assert log + aborts == log;
    } else {
      var n := |aborts| - 1;
      assert (log + aborts)[..|log| + n] == log + aborts[..n];
      RedoIgnoresAborts(log, aborts[..n], committed);
      assert aborts[n] in aborts;
    }
  }

  // ---------------------------------------------------------------- undo

  ghost function AbortsOf(ids: seq<TxnId>): (es: seq<Entry>)
    ensures |es| == |ids| && forall i :: 0 <= i < |ids| ==> es[i] == Entry(ids[i], ABORT)
  {
    seq(|ids|, i requires 0 <= i < |ids| => Entry(ids[i], ABORT))
  }

  ghost function UndoEntries(log: seq<Entry>): seq<Entry> {
    AbortsOf(Ascending(ActiveIn(log)))
  }

  // ---------------------------------------------------------------- crashes during recovery

  /** `aborts` is what a recovery of `log` wrote before it stopped; all of it, if it finished. */
  ghost predicate WroteSome(log: seq<LogRecord>, aborts: seq<LogRecord>) {
    Strip(aborts) <= UndoEntries(Strip(log))
  }

  ghost predicate WroteAll(log: seq<LogRecord>, aborts: seq<LogRecord>) {
    Strip(aborts) == UndoEntries(Strip(log))
  }

  lemma AbortsSnoc(log: seq<Entry>, ids: seq<TxnId>)
    requires ids != []
    ensures var n := |ids| - 1; log + AbortsOf(ids) == (log + AbortsOf(ids[..n])) + [Entry(ids[n], ABORT)]
  {
  }

  lemma {:induction false} AbortsEnd(log: seq<Entry>, ids: seq<TxnId>)
    ensures ActiveIn(log + AbortsOf(ids)) == ActiveIn(log) - Members(ids)
    ensures CommittedIn(log + AbortsOf(ids)) == CommittedIn(log)
    decreases |ids|
  {
    hide ActiveIn, CommittedIn, AbortsOf;
    if ids == [] {
      assert log + AbortsOf(ids) == log;
    } else {
      var n := |ids| - 1;
      AbortsEnd(log, ids[..n]);
      AbortsSnoc(log, ids);
      AppendEntry(log + AbortsOf(ids[..n]), Entry(ids[n], ABORT));
      assert ids == ids[..n] + [ids[n]];
    }
  }

  /** After part of the ABORT records, recovery has exactly the others still to write. */
  lemma UndoAfterSome(log: seq<LogRecord>, aborts: seq<LogRecord>)
    requires WroteSome(log, aborts)
    ensures Strip(aborts) + UndoEntries(Strip(log + aborts)) == UndoEntries(Strip(log))
    ensures CommittedIn(Strip(log + aborts)) == CommittedIn(Strip(log))
  {
    var es := Strip(log);
    var ids, k := Ascending(ActiveIn(es)), |aborts|;
    hide Ascending, ActiveIn, CommittedIn, Members;
    assert Strip(aborts) == AbortsOf(ids[..k]);
    StripConcat(log, aborts);
    AbortsEnd(es, ids[..k]);
    AscendingAfterSome(ActiveIn(es), k);
    assert AbortsOf(ids) == AbortsOf(ids[..k]) + AbortsOf(ids[k..]);
  }

  ghost function Flatten(parts: seq<seq<LogRecord>>): seq<LogRecord> {
    if parts == [] then [] else Flatten(parts[..|parts| - 1]) + parts[|parts| - 1]
  }

  /** Each part is what one interrupted recovery wrote on the log it found. */
  ghost predicate Interrupted(log: seq<LogRecord>, parts: seq<seq<LogRecord>>) {
    parts == [] ||
    (var n := |parts| - 1;
     Interrupted(log, parts[..n]) && WroteSome(log + Flatten(parts[..n]), parts[n]))
  }

  lemma {:induction false} InterruptedWroteSome(log: seq<LogRecord>, parts: seq<seq<LogRecord>>)
    requires Interrupted(log, parts)
    ensures WroteSome(log, Flatten(parts))
    decreases |parts|
  {
    if parts == [] {
      assert Strip(Flatten(parts)) == [];
    } else {
      var n := |parts| - 1;
      var before := Flatten(parts[..n]);
      InterruptedWroteSome(log, parts[..n]);
      UndoAfterSome(log, before);
      StripConcat(before, parts[n]);
    }
  }

  /** However many recoveries are cut short, wherever they are cut, the next complete one leaves the log an
      uninterrupted recovery would have left, up to time stamps, with the same committed ids and the very
      same redo list. */
  lemma CrashConvergence(log: seq<LogRecord>, parts: seq<seq<LogRecord>>, last: seq<LogRecord>)
    requires Interrupted(log, parts) && WroteAll(log + Flatten(parts), last)
    ensures WroteAll(log, Flatten(parts) + last)
    ensures var end := log + (Flatten(parts) + last);
            && CommittedIn(Strip(end)) == CommittedIn(Strip(log))
            && RedoOf(end, CommittedIn(Strip(end))) == RedoOf(log, CommittedIn(Strip(log)))
  {
    InterruptedWroteSome(log, parts);
    UndoAfterSome(log, Flatten(parts));
    var aborts := Flatten(parts) + last;
    StripConcat(Flatten(parts), last);
    UndoAfterSome(log, aborts);
    forall r | r in aborts ensures r.kind == ABORT {
      var i :| 0 <= i < |aborts| && aborts[i] == r;
      assert Strip(aborts)[i] == UndoEntries(Strip(log))[i];
    }
    RedoIgnoresAborts(log, aborts, CommittedIn(Strip(log)));
  }

  /** After a complete recovery nothing is incomplete, and another one appends nothing. */
  lemma RecoveryIdempotent(log: seq<LogRecord>, aborts: seq<LogRecord>)
    requires WroteAll(log, aborts)
    ensures ActiveIn(Strip(log + aborts)) == {}
    ensures UndoEntries(Strip(log + aborts)) == []
  {
    var es := Strip(log);
    StripConcat(log, aborts);
    AbortsEnd(es, Ascending(ActiveIn(es)));
    AscendingIsSorted(ActiveIn(es));
  }

  // ---------------------------------------------------------------- the manager

  datatype RecoveryState = ANALYSIS | REDO | UNDO | COMPLETE

  class RecoveryManager {
    const logManager: LogManager
    var recoveryState: RecoveryState
    var committedTxns: set<Uint32>
    var incompleteTxns: set<Uint32>
    var redoRecords: seq<LogRecord>
    var undoRecords: seq<LogRecord>

    constructor (logManager: LogManager)
      ensures this.logManager == logManager && recoveryState == ANALYSIS
    {
      this.logManager := logManager;
      recoveryState, committedTxns, incompleteTxns, redoRecords, undoRecords := ANALYSIS, {}, {}, [], [];
    }

    method Analyze()
      requires logManager.Readable()
      modifies this`committedTxns, this`incompleteTxns
      ensures committedTxns == CommittedIn(Strip(logManager.Records()))
      ensures incompleteTxns == ActiveIn(Strip(logManager.Records()))
    {
      hide ReadAll, CommittedIn, ActiveIn;
      NothingIsActive();
      var read := logManager.ReadLogs();
      var logs := read.value;
      var committed: set<Uint32>, active: set<Uint32> := {}, {};
      for i := 0 to |logs|
        invariant committed == CommittedIn(Strip(logs[..i])) && active == ActiveIn(Strip(logs[..i]))
      {
        var txn := logs[i].txn;
        assert Strip(logs[..i + 1]) == Strip(logs[..i]) + [Entry(txn, logs[i].kind)];
        AppendEntry(Strip(logs[..i]), Entry(txn, logs[i].kind));
        match logs[i].kind
        case BEGIN => active := active + {txn};
        case COMMIT => committed, active := committed + {txn}, active - {txn};
        case ABORT => active := active - {txn};
        case _ =>
      }
      assert logs[..|logs|] == logs;
      committedTxns, incompleteTxns := committed, active;
    }

    method Redo()
      requires logManager.Readable()
      modifies this`redoRecords
      ensures redoRecords == RedoOf(logManager.Records(), committedTxns)
    {
      redoRecords := [];
      var read := logManager.ReadLogs();
      var logs := read.value;
      for i := 0 to |logs|
        invariant redoRecords == RedoOf(logs[..i], committedTxns)
      {
        assert logs[..i + 1][..i] == logs[..i];
        if logs[i].txn in committedTxns && IsDataModification(logs[i].kind) {
          redoRecords := redoRecords + [logs[i]];
        }
      }
      assert logs[..|logs|] == logs;
    }

    /** One ABORT record per incomplete id, in ascending order, stamped with whatever the clock says. */
    method Undo()
      requires logManager.Readable() && WholeLines(logManager.file)
      modifies this`undoRecords, logManager
      ensures Strip(undoRecords) == AbortsOf(Ascending(incompleteTxns))
      ensures forall i :: 0 <= i < |undoRecords| ==> undoRecords[i].kind == ABORT
      ensures logManager.Readable() && WholeLines(logManager.file)
      ensures logManager.Records() == old(logManager.Records()) + undoRecords
    {
      hide ReadAll, Line, WholeLines, Ascending;
      undoRecords := [];
      var rest := incompleteTxns;
      ghost var ids: seq<TxnId> := [];
      while rest != {}
        invariant Ascending(incompleteTxns) == ids + Ascending(rest)
        invariant Strip(undoRecords) == AbortsOf(ids)
        invariant logManager.Readable() && WholeLines(logManager.file)
        invariant logManager.Records() == old(logManager.Records()) + undoRecords
        decreases rest
      {
        var m := LeastOf(rest);
        AscendingStep(rest, m);
        var now: Int64 := *;
        var record := LogRecord(m, ABORT, now);
        logManager.WriteLog(record);
        StripConcat(undoRecords, [record]);
        assert AbortsOf(ids + [m]) == AbortsOf(ids) + [Entry(m, ABORT)];
        undoRecords := undoRecords + [record];
        ids := ids + [m];
        rest := rest - {m};
      }
      assert ids + Ascending({}) == ids by {
        NoneAscending();
      }
    }

    method PerformRecovery()
      requires logManager.Readable() && WholeLines(logManager.file)
      modifies this, logManager
      ensures recoveryState == COMPLETE
      ensures committedTxns == CommittedIn(Strip(old(logManager.Records())))
      ensures incompleteTxns == ActiveIn(Strip(old(logManager.Records())))
      ensures redoRecords == RedoOf(old(logManager.Records()), committedTxns)
      ensures WroteAll(old(logManager.Records()), undoRecords)
      ensures logManager.Readable() && WholeLines(logManager.file)
      ensures logManager.Records() == old(logManager.Records()) + undoRecords
    {
      recoveryState := ANALYSIS;
      Analyze();
      recoveryState := REDO;
      Redo();
      recoveryState := UNDO;
      Undo();
      recoveryState := COMPLETE;
    }
  }
}
