/** The command loop: labels, dotted resource names, the waiting commands, and the managers together. */
module Schedulers {
  import opened AccessAnswers
  import opened AscendingIds
  import opened Commands
  import opened Decimal
  import opened Engine
  import opened EngineLocks
  import opened EngineSafety
  import opened EngineTheorems
  import opened Histories
  import opened Ids
  import opened LockAnswers
  import opened LockModes
  import opened LockTable
  import opened LockSafety
  import opened LockRuns
  import opened LockHierarchy
  import opened LockManagers
  import opened LogFiles
  import opened LogRecords
  import opened OlderLogs
  import opened Recovery
  import opened ResourceNames
  import opened Transactions
  import opened Wrappers

  // ---------------------------------------------------------------- records

  /** Every record holds the bytes of its value. */
  ghost predicate RecordsHold(records: map<ResId, seq<char>>, store: Store) {
    records.Keys == store.Keys && forall r :: r in store ==> BytesToInt(records[r]) == Some(store[r])
  }

  lemma RecordWritten(records: map<ResId, seq<char>>, store: Store, r: ResId, value: Int32)
    requires RecordsHold(records, store)
    ensures RecordsHold(records[r := IntToBytes(value)], store[r := value])
  {
    BytesRoundTrip(value);
    hide BytesToInt, IntToBytes;
  }

  function InitialValue(path: Path): Int32 {
    if path == ["A"] then 10 else 0
  }

  /** Every named resource was created with 10 when its name is A and with 0 otherwise. */
  ghost predicate InitialsOk(ids: Names, initial: Store) {
    forall p :: p in ids ==> ids[p] in initial && initial[ids[p]] == if p == ["A"] then 10 else 0
  }

  ghost predicate LabelsOk(labels: Labels, next: TxnId) {
    && (forall l :: l in labels ==> 1 <= labels[l] < next)
    && (forall l, m :: l in labels && m in labels && labels[l] == labels[m] ==> l == m)
  }

  datatype Input =
    | BeginLine(txnLabel: string)
    | AccessLine(cmd: Command)
    | EndLine(txnLabel: string, commit: bool)
    | ShowLine(name: string)
    | CheckpointLine
    | RecoverLine
    | OtherLine
    | ExitLine

  datatype Reply = Accepted | Waiting | Invalid | Exists | NotFound | NotActive

  /** The part of the scheduler that decides what happens next. */
  datatype Snapshot = Snapshot(run: seq<Action>, labels: Labels, ids: Names, pending: seq<Command>)

  /** READ and WRITE, from one line boundary to the next. */
  ghost predicate Submitted(a: Snapshot, b: Snapshot, cmd: Command) {
    && b.labels == a.labels
    && if cmd.txnLabel == "" || cmd.resourceName == "" || cmd.txnLabel !in a.labels then b == a
       else if (exists k :: 0 <= k < |a.pending| && a.pending[k].txnLabel == cmd.txnLabel)
               || !Live(a.labels, After(a.run).active, cmd)
       then b == a.(pending := a.pending + [cmd])
       else
         && NamesGrown(a.ids, b.ids)
         && var ok := MayExecute(After(a.run).locks, a.ids, a.labels[cmd.txnLabel], cmd);
            && Attempts(a.run, b.run, cmd, a.labels, b.ids, ok)
            && b.pending == if ok then a.pending else a.pending + [cmd]
  }

  /** COMMIT and ABORT of an active transaction: its end, then the processing of what waits. */
  ghost predicate Ended(a: Snapshot, b: Snapshot, t: TxnId, commit: bool) {
    var mid := a.run + [Finish(t, commit)];
    && b.labels == a.labels && NamesGrown(a.ids, b.ids)
    && Extends(mid, b.run) && AccessesFor(b.run, |mid|, a.pending, a.labels, b.ids)
    && (exists tally :: Accounted(a.pending, b.pending, tally, a.labels, After(b.run).active, b.ids,
                                  After(mid).trace, After(b.run).trace))
    && (exists last :: |mid| <= last && Passed(b.run, last, a.labels, b.ids, b.pending, |b.pending|))
  }

  /** What one line does. */
  ghost predicate LineEffect(older: seq<Entry>, line: Input, a: Snapshot, b: Snapshot) {
    var s := After(a.run);
    match line
    case BeginLine(l) =>
      b == if l == "" || l in a.labels then a
           else a.(run := a.run + [Action.Begin], labels := a.labels[l := s.nextTxn])
    case AccessLine(cmd) => Submitted(a, b, cmd)
    case EndLine(l, commit) =>
      if l !in a.labels || a.labels[l] !in s.active then b == a else Ended(a, b, a.labels[l], commit)
    case ShowLine(name) =>
      && b.labels == a.labels && b.pending == a.pending && Creates(a.run, b.run) && NamesGrown(a.ids, b.ids)
      && b.ids.Keys == a.ids.Keys + (if name == "" then {} else PrefixesOf(Segments(name)))
    case CheckpointLine => b == a.(run := a.run + [Action.Checkpoint])
    case RecoverLine =>
      b == a.(run := a.run + RecoverActions(s.active, Ascending(ActiveIn(older + s.log))), pending := [])
    case _ => b == a
  }

  /** History, labels and names only grow. */
  ghost predicate Advances(a: Snapshot, b: Snapshot) {
    && a.run <= b.run && NamesGrown(a.ids, b.ids)
    && forall l :: l in a.labels ==> l in b.labels && b.labels[l] == a.labels[l]
  }

  lemma LineAdvances(older: seq<Entry>, line: Input, a: Snapshot, b: Snapshot)
    requires LineEffect(older, line, a, b)
    ensures Advances(a, b)
  {
    hide After, Accounted, Passed, AccessesFor, Attempts, Creates, Extends, Ascending, ActiveIn, RecoverActions,
      PrefixesOf, Segments, Live, NamesGrown, MayExecute;
    NamesGrownRefl(a.ids);
    match line
    case BeginLine(l) =>
    case AccessLine(cmd) =>
      if b != a && b != a.(pending := a.pending + [cmd]) {
        var ok := MayExecute(After(a.run).locks, a.ids, a.labels[cmd.txnLabel], cmd);
        AttemptExtends(a.run, b.run, cmd, a.labels, b.ids, ok);
        ExtendsIsPrefix(a.run, b.run);
      }
    case EndLine(l, commit) =>
      if b != a {
        var mid := a.run + [Finish(a.labels[l], commit)];
        ExtendsIsPrefix(mid, b.run);
        assert mid[..|a.run|] == a.run;
      }
    case ShowLine(name) =>
      CreatesExtends(a.run, b.run);
      ExtendsIsPrefix(a.run, b.run);
    case _ =>
  }

  lemma ExtendsIsPrefix(a: seq<Action>, b: seq<Action>)
    requires Extends(a, b)
    ensures a <= b
  {
  }

  lemma AdvancesTransitive(a: Snapshot, b: Snapshot, c: Snapshot)
    requires Advances(a, b) && Advances(b, c)
    ensures Advances(a, c)
  {
    NamesGrownTransitive(a.ids, b.ids, c.ids);
  }

  lemma AdvancesItself(a: Snapshot)
    ensures Advances(a, a)
  {
  }

  class Scheduler {
    const tm: TransactionManager
    const locks: LockManager
    const logs: LogManager
    var records: map<ResId, seq<char>>
    var txnIds: Labels
    var resourceIds: Names
    var pending: seq<Command>
    var nextResourceId: ResId
    ghost var run: seq<Action>
    ghost const older: seq<Entry>

    /** The engine state that the managers and the fields add up to. */
    ghost function Now(): Sys
      reads this`run
    {
      After(run)
    }

    ghost predicate Agrees(s: Sys)
      reads this, tm, locks, logs
    {
      && s.active == tm.Active() && s.nextTxn == tm.nextTransactionId
      && s.committed == tm.committedCount && s.aborted == tm.abortedCount
      && s.nextRes == nextResourceId && s.locks == locks.View()
      && RecordsHold(records, s.store)
      && LogHolds(older + s.log)
    }

    ghost predicate LogHolds(log: seq<Entry>)
      reads logs
    {
      logs.Readable() && WholeLines(logs.file) && log == Strip(logs.Records())
    }

    ghost predicate Valid()
      reads this, tm, locks, logs
    {
      && tm.Valid() && locks.Valid()
      && IsRun(run) && Agrees(Now())
      && NamesOk(resourceIds, Now().locks.parent, nextResourceId)
      && InitialsOk(resourceIds, Now().initial)
      && LabelsOk(txnIds, Now().nextTxn)
    }

    ghost function Shot(): Snapshot
      reads this
    {
      Snapshot(run, txnIds, resourceIds, pending)
    }

    /** Between two lines: nobody who is first in line could go on. */
    ghost predicate Quiet()
      reads this
    {
      Settled(run, txnIds, resourceIds, pending)
    }

    /** Nothing begun, nothing created, and a log file opened for appending: `older` is what it holds. */
    constructor (existing: string)
      requires ReadAll(existing).Some? && WholeLines(existing)
      ensures Valid() && Quiet() && run == [] && pending == []
      ensures tm.nextTransactionId == 1 && nextResourceId == 1 && resourceIds == map[] && txnIds == map[]
      ensures older == Strip(ReadAll(existing).value) && logs.file == existing
      ensures fresh(tm) && fresh(locks) && fresh(logs)
    {
      tm := new TransactionManager();
      locks := new LockManager();
      logs := new LogManager(existing);
      records, txnIds, resourceIds, pending, nextResourceId := map[], map[], map[], [], 1;
      run := [];
      older := Strip(ReadAll(existing).value);
      new;
      assert older + [] == older;
    }

    // -------------------------------------------------------------- resources

    /** A new resource, with its name when `path` has segments. */
    method CreateRecord(path: Path, up: Option<ResId>, value: Int32) returns (id: ResId)
      requires Valid() && MayName(resourceIds, path, up)
      requires path != [] ==> value == if path == ["A"] then 10 else 0
      modifies this`records, this`nextResourceId, this`run, this`resourceIds, locks
      ensures Valid() && id == old(nextResourceId) && nextResourceId == id + 1
      ensures run == old(run) + [Create(up, value)]
      ensures Now() == Perform(old(Now()), Create(up, value))
      ensures resourceIds == if path == [] then old(resourceIds) else old(resourceIds)[path := id]
    {
      hide After, IsRun, Perform, NamesOk, RecordsHold, LabelsOk, Inv, LockTable.Apply, LogHolds,
        TransactionManager.Valid, MayName, InitialsOk;
      ghost var s := Now();
      CreateNext(run, resourceIds, records, path, up, value);
      id := nextResourceId;
      nextResourceId := nextResourceId + 1;
      if path != [] {
        resourceIds := resourceIds[path := id];
      }
      if up.Some? {
        locks.SetResourceParent(id, up.value);
      }
      records := records[id := IntToBytes(value)];
      run := run + [Create(up, value)];
    }

    /** One segment further down: the id of `path`, created under `last` when the path is new. */
    method ResolvePath(path: Path, last: ResId) returns (id: ResId)
      requires Valid() && path != []
      requires if |path| == 1 then last == 0
               else path[..|path| - 1] in resourceIds && last == resourceIds[path[..|path| - 1]]
      modifies this`records, this`nextResourceId, this`run, this`resourceIds, locks
      ensures Valid() && Grown(old(Now()), Now()) && NamesGrown(old(resourceIds), resourceIds)
      ensures Creates(old(run), run)
      ensures resourceIds.Keys == old(resourceIds).Keys + {path} && id == resourceIds[path]
      ensures if path in old(resourceIds) then run == old(run)
              else FreshValue(Now(), id, if path == ["A"] then 10 else 0)
      ensures NewIds(old(resourceIds), resourceIds, nextResourceId - old(nextResourceId))
    {
      hide After, IsRun, Perform, NamesOk, RecordsHold, LabelsOk, Inv, LogHolds, TransactionManager.Valid;
      ghost var s, ids := Now(), resourceIds;
      NamesGrownRefl(resourceIds);
      GrownRefl(s);
      CreatesItself(run);
      if path in resourceIds {
        return resourceIds[path];
      }
      NameNext(run, resourceIds, path, last, InitialValue(path));
      ghost var before := run;
      id := CreateRecord(path, if last != 0 then Some(last) else None, InitialValue(path));
      CreatesSnoc(before, before, run[|before|]);
    }

    /** The loop over the segments of a name, creating what is not there yet. */
    method ResolveSegments(name: string) returns (last: ResId)
      requires Valid()
      modifies this`records, this`nextResourceId, this`run, this`resourceIds, locks
      ensures Valid() && Growth(old(Now()), old(resourceIds), Now(), resourceIds, Segments(name))
      ensures Reached(resourceIds, Segments(name), last) && Creates(old(run), run)
      ensures NewIds(old(resourceIds), resourceIds, nextResourceId - old(nextResourceId))
    {
      hide After, IsRun, Perform, NamesOk, RecordsHold, LabelsOk, Inv, LogHolds, TransactionManager.Valid,
        Growth, Grown, NamesGrown, FreshValue, Find, Rest, Segments, Creates;
      ghost var s, ids := Now(), resourceIds;
      CreatesItself(run);
      NothingGrown(s, ids);
      var rest, path: Path := name, [];
      last := 0;
      assert Segments(name) == path + Segments(rest);
      while rest != ""
        invariant Segments(name) == path + Segments(rest)
        invariant Valid() && Growth(s, ids, Now(), resourceIds, path) && Reached(resourceIds, path, last)
        invariant NewIds(ids, resourceIds, nextResourceId - old(nextResourceId)) && Creates(old(run), run)
        decreases |rest|
      {
        NextSegment(Segments(name), path, rest);
        var i := Find(rest, '.');
        var segment := rest[..i];
        rest := Rest(rest, i);
        if segment == "" {
          continue;
        }
        ghost var s1, ids1 := Now(), resourceIds;
        ghost var run1 := run;
        last := ResolvePath(path + [segment], last);
        CreatesTransitive(old(run), run1, run);
        OneMoreSegment(s, ids, s1, ids1, Now(), resourceIds, path, segment);
        path := path + [segment];
      }
      LastSegment(Segments(name), path);
    }

    /** The id of a dotted name; every prefix of its path that has no record yet gets one.  A name without
        segments gets a record of its own at every call. */
    method EnsureResource(name: string) returns (r: ResId)
      requires Valid()
      modifies this`records, this`nextResourceId, this`run, this`resourceIds, locks
      ensures Valid() && Growth(old(Now()), old(resourceIds), Now(), resourceIds, Segments(name))
      ensures r in Now().store && Creates(old(run), run)
      ensures if Segments(name) != [] then IsNamed(resourceIds, Segments(name), r) else Unused(Now(), r)
      ensures var unnamed := if Segments(name) == [] then 1 else 0;
              NewIds(old(resourceIds), resourceIds, nextResourceId - old(nextResourceId) - unnamed)
    {
      hide After, IsRun, Perform, NamesOk, RecordsHold, LabelsOk, Inv, LogHolds, TransactionManager.Valid,
        Growth, Segments, Unused, Creates, MayName;
      r := ResolveSegments(name);
      if Segments(name) != [] {
        NamedIsStored(run, resourceIds, Segments(name));
      }
      if r == 0 {
        ghost var s1 := Now();
        UnnamedNext(run);
        MayBeUnnamed(resourceIds, Now().locks.parent, nextResourceId);
        ghost var run1 := run;
        r := CreateRecord([], None, 0);
        CreatesSnoc(old(run), run1, run[|run1|]);
        UnnamedGrowth(old(Now()), old(resourceIds), s1, Now(), resourceIds, Segments(name));
        UnusedIsStored(Now(), r);
      }
    }

    // -------------------------------------------------------------- one command

    method WriteLog(t: Uint32, kind: LogType, ghost log: seq<Entry>)
      requires LogHolds(log)
      modifies logs
      ensures LogHolds(log + [Entry(t, kind)])
    {
      hide ReadAll, Line, WholeLines;
      var now: Int64 := *;
      ghost var before := logs.Records();
      logs.WriteLog(LogRecord(t, kind, now));
      StripConcat(before, [LogRecord(t, kind, now)]);
      assert Strip([LogRecord(t, kind, now)]) == [Entry(t, kind)];
    }

    /** A granted READ gives the value of the record's bytes. */
    method ReadRecord(r: ResId, ghost store: Store) returns (value: int)
      requires RecordsHold(records, store) && r in store
      ensures value == store[r]
    {
      var read := BytesToInt(records[r]);
      value := read.value;
    }

    /** The lock request of a command and, when it is granted, its effect on the record and the log. */
    method AccessRecord(cmd: Command, t: TxnId, r: ResId)
        returns (granted: bool, printed: Option<int>, ghost steps: seq<Step>)
      requires Valid() && t in Now().active && r in Now().store
      modifies this`records, this`run, locks, logs
      ensures Valid() && Accessed(old(Now()), Now(), t, r, WriteOf(cmd), steps, granted)
      ensures run == old(run) + [Access(t, r, WriteOf(cmd), steps, granted)]
      ensures granted && cmd.READ? ==> printed == Some(old(Now()).store[r])
      ensures cmd.READ? ==>
                (granted <==> && !OthersHold(old(Now()).locks, t, r, {EXCLUSIVE, INTENTION_EXCLUSIVE})
                              && !OthersHoldAbove(old(Now()).locks, t, r, {EXCLUSIVE}))
      ensures cmd.WRITE? ==>
                (granted <==> && (forall l :: l in LocksOn(old(Now()).locks, r) ==> l.txn == t)
                              && !OthersHoldAbove(old(Now()).locks, t, r, {EXCLUSIVE, SHARED}))
      ensures LogHolds(if granted && cmd.WRITE? then older + (old(Now()).log + [Entry(t, UPDATE)])
                       else older + old(Now()).log)
    {
      hide After, IsRun, Perform, NamesOk, RecordsHold, LabelsOk, Inv, LogHolds, TransactionManager.Valid,
        Run, Serves, Plan, BytesToInt, IntToBytes, OthersHold, OthersHoldAbove, Acyclic, HierarchyOk, Within;
      ghost var s := Now();
      OkParts(run);
      tm.ActiveIdIsSmall(t);
      printed := None;
      if cmd.READ? {
        granted, steps := locks.RequestLock(t, r, SHARED);
      } else {
        granted, steps := locks.RequestLock(t, r, EXCLUSIVE);
      }
      AccessNext(run, t, r, WriteOf(cmd), steps, granted);
      ServedAccess(s.locks, t, r, WriteOf(cmd), steps, granted);
      run := run + [Access(t, r, WriteOf(cmd), steps, granted)];
      if !granted {
        return;
      }
      match cmd
      case READ(_, _) =>
        var value := ReadRecord(r, s.store);
        printed := Some(value);
      case WRITE(_, _, value) =>
        RecordWritten(records, s.store, r, value);
        records := records[r := IntToBytes(value)];
        WriteLog(t, UPDATE, older + s.log);
        assert (older + s.log) + [Entry(t, UPDATE)] == older + (s.log + [Entry(t, UPDATE)]);
    }

    /** `printed` is the value a READ reports. */
    method ExecuteCommand(cmd: Command) returns (executed: bool, printed: Option<int>)
      requires Valid()
      modifies this`records, this`nextResourceId, this`run, this`resourceIds, locks, logs
      ensures Valid() && SameTxns(old(Now()), Now()) && NamesGrown(old(resourceIds), resourceIds)
      ensures !Live(txnIds, old(Now()).active, cmd) ==> !executed && run == old(run) && resourceIds == old(resourceIds)
      ensures Live(txnIds, old(Now()).active, cmd) ==>
                Attempts(old(run), run, cmd, txnIds, resourceIds, executed)
      ensures executed ==> Executes(old(Now()), Now(), cmd, txnIds, resourceIds)
      ensures executed && cmd.READ? ==> printed == Some(Now().trace[|Now().trace| - 1].value)
      ensures executed && cmd.READ? ==>
                printed == Some(Reported(old(Now()).trace, resourceIds, Segments(cmd.resourceName)))
      ensures Live(txnIds, old(Now()).active, cmd) ==>
                (executed <==> MayExecute(old(Now()).locks, old(resourceIds), txnIds[cmd.txnLabel], cmd))
      ensures !executed && Live(txnIds, old(Now()).active, cmd) ==>
                MustWait(old(Now()), Now(), cmd, txnIds, resourceIds)
    {
      hide After, IsRun, NamesOk, RecordsHold, LabelsOk, Inv, LogHolds, TransactionManager.Valid, Growth,
        Segments, Grown, NamesGrown, Executes, MustWait, SysOk, Accessed, NewIds, Creates, Attempts, MayExecute,
        InitialsOk, Reported, OthersHold, OthersHoldAbove, LocksOn;
      ghost var s := Now();
      executed, printed := false, None;
      GrownRefl(s);
      NamesGrownRefl(resourceIds);
      if cmd.txnLabel !in txnIds {
        return;
      }
      var t := txnIds[cmd.txnLabel];
      var active := tm.IsTransactionActive(t);
      if !active {
        return;
      }
      var r := EnsureResource(cmd.resourceName);
      ghost var s1 := Now();
      GrowthParts(s, old(resourceIds), s1, resourceIds, Segments(cmd.resourceName));
      RunKeepsOk(run);
      ghost var steps, run1;
      run1 := run;
      executed, printed, steps := AccessRecord(cmd, t, r);
      AttemptMade(old(run), run1, run[|run1|], cmd, txnIds, resourceIds, s1.locks, r);
      AnswerIsByName(s, old(resourceIds), run1, resourceIds, cmd, txnIds, r, Now(), steps, executed);
      ValueIsReported(s, run1, resourceIds, Segments(cmd.resourceName), r);
      if executed {
        GrantExecutes(s, s1, Now(), cmd, txnIds, resourceIds, r, steps);
      } else {
        RefusalMustWait(s, s1, Now(), cmd, txnIds, resourceIds, r, steps);
      }
    }

    // -------------------------------------------------------------- the waiting commands

    method HasPendingForTxn(txnLabel: string) returns (has: bool)
      ensures has <==> exists k :: 0 <= k < |pending| && pending[k].txnLabel == txnLabel
    {
      for i := 0 to |pending|
        invariant forall k :: 0 <= k < i ==> pending[k].txnLabel != txnLabel
      {
        if pending[i].txnLabel == txnLabel {
          return true;
        }
      }
      has := false;
    }

    method IsLive(cmd: Command) returns (live: bool)
      requires Valid()
      ensures live <==> Live(txnIds, Now().active, cmd)
      ensures live ==> cmd.txnLabel in txnIds
    {
      live := false;
      if cmd.txnLabel in txnIds {
        live := tm.IsTransactionActive(txnIds[cmd.txnLabel]);
      }
    }

    /** A waiting transaction is announced once per pass, when it holds a lock on what it waits for. */
    method NoteResumed(cmd: Command, resumed: set<string>) returns (noted: set<string>)
      requires Valid() && cmd.txnLabel in txnIds
      modifies this`records, this`nextResourceId, this`run, this`resourceIds, locks
      ensures Valid() && Grown(old(Now()), Now()) && NamesGrown(old(resourceIds), resourceIds)
      ensures Creates(old(run), run)
      ensures noted == if cmd.resourceName != "" && Resumes(Now().locks, txnIds, resourceIds, cmd)
                       then resumed + {cmd.txnLabel} else resumed
    {
      hide After, IsRun, NamesOk, RecordsHold, LabelsOk, Inv, LogHolds, TransactionManager.Valid, Growth,
        Segments, Grown, NamesGrown, Creates;
      CreatesItself(run);
      noted := resumed;
      assert cmd.txnLabel in resumed ==> resumed + {cmd.txnLabel} == resumed;
      GrownRefl(Now());
      NamesGrownRefl(resourceIds);
      if cmd.txnLabel !in resumed && cmd.resourceName != "" {
        var r := EnsureResource(cmd.resourceName);
        GrowthParts(old(Now()), old(resourceIds), Now(), resourceIds, Segments(cmd.resourceName));
        var holds := locks.HasLock(txnIds[cmd.txnLabel], r);
        if holds {
          noted := resumed + {cmd.txnLabel};
        }
      }
    }

    /** One waiting command of an active transaction: announce it if it resumes, then try it. */
    method TryWaiting(cmd: Command, resumed: set<string>) returns (noted: set<string>, executed: bool)
      requires Valid() && Live(txnIds, Now().active, cmd)
      modifies this`records, this`nextResourceId, this`run, this`resourceIds, locks, logs
      ensures Valid() && SameTxns(old(Now()), Now()) && NamesGrown(old(resourceIds), resourceIds)
      ensures if executed then Executes(old(Now()), Now(), cmd, txnIds, resourceIds)
              else MustWait(old(Now()), Now(), cmd, txnIds, resourceIds)
      ensures resumed <= noted && Attempts(old(run), run, cmd, txnIds, resourceIds, executed)
    {
      hide After, IsRun, NamesOk, RecordsHold, LabelsOk, Inv, LogHolds, TransactionManager.Valid, NamesGrown,
        Grown, Executes, MustWait, Resumes, Creates, Attempts;
      ghost var s, ids := Now(), resourceIds;
      noted := NoteResumed(cmd, resumed);
      ghost var s1, ids1, run1 := Now(), resourceIds, run;
      GrownParts(s, s1);
      var printed;
      executed, printed := ExecuteCommand(cmd);
      CreatesThenAttempts(old(run), run1, run, cmd, txnIds, resourceIds, executed);
      NamesGrownTransitive(ids, ids1, resourceIds);
      if executed {
        GrownThenExecutes(s, s1, Now(), cmd, txnIds, resourceIds);
      } else {
        GrownThenMustWait(s, s1, Now(), cmd, txnIds, resourceIds);
      }
    }

    /** One pass over the waiting commands: drop the ones whose transaction is not active, try the others.
        `was` and `s` are the commands and the state when the passes began, `tally` what became of the
        commands so far. */
    method PassOverPending(resumed: set<string>, ghost was: seq<Command>, ghost s: Sys, ghost start: nat,
                           ghost tally: Tally)
        returns (madeProgress: bool, noted: set<string>, ghost next: Tally)
      requires Valid() && SameTxns(s, Now())
      requires Accounted(was, pending, tally, txnIds, s.active, resourceIds, s.trace, Now().trace)
      requires AccessesFor(run, start, was, txnIds, resourceIds)
      modifies this`records, this`nextResourceId, this`run, this`resourceIds, this`pending, locks, logs
      ensures Valid() && SameTxns(s, Now()) && NamesGrown(old(resourceIds), resourceIds)
      ensures Accounted(was, pending, next, txnIds, s.active, resourceIds, s.trace, Now().trace)
      ensures |pending| <= |old(pending)| && (madeProgress ==> |pending| < |old(pending)|)
      ensures madeProgress <==> |next.done| > |tally.done|
      ensures PassOrder(tally, next, |pending|) && Extends(old(run), run)
      ensures AccessesFor(run, start, was, txnIds, resourceIds)
      ensures !madeProgress ==> Passed(run, |old(run)|, txnIds, resourceIds, pending, |pending|)
    {
      hide After, IsRun, NamesOk, RecordsHold, LabelsOk, Inv, LogHolds, TransactionManager.Valid, NamesGrown,
        Executes, MustWait, Accounted, Passed, Live, PassOrder, Extends, PassState, Attempts,
        AccessesFor;
      NamesGrownRefl(resourceIds);
      ExtendsItself(run);
      PassStarts(was, s, tally, txnIds, run, resourceIds, pending, start);
      madeProgress, noted, next := false, resumed, tally;
      var i := 0;
      while i < |pending|
        invariant 0 <= i <= |pending| <= |old(pending)| && (madeProgress ==> |pending| < |old(pending)|)
        invariant Valid() && NamesGrown(old(resourceIds), resourceIds) && Extends(old(run), run)
        invariant PassState(was, s, tally, |old(run)|, txnIds, next, run, resourceIds, pending, i, madeProgress, start)
        decreases |pending| - i
      {
        var cmd := pending[i];
        var live := IsLive(cmd);
        if !live {
          next := PassDrops(was, s, tally, |old(run)|, txnIds, next, run, resourceIds, pending, i, madeProgress,
                            start);
          pending := pending[..i] + pending[i + 1..];
          continue;
        }
        ghost var ids1, run1 := resourceIds, run;
        var executed;
        noted, executed := TryWaiting(cmd, noted);
        AttemptExtends(run1, run, cmd, txnIds, resourceIds, executed);
        ExtendsTransitive(old(run), run1, run);
        NamesGrownTransitive(old(resourceIds), ids1, resourceIds);
        if executed {
          next := PassExecutes(was, s, tally, |old(run)|, txnIds, next, run1, run, ids1, resourceIds, pending, i,
                               madeProgress, start);
          pending := pending[..i] + pending[i + 1..];
          madeProgress := true;
        } else {
          PassWaits(was, s, tally, |old(run)|, txnIds, next, run1, run, ids1, resourceIds, pending, i, madeProgress,
                    start);
          i := i + 1;
        }
      }
      PassEnds(was, s, tally, |old(run)|, txnIds, next, run, resourceIds, pending, madeProgress, start);
    }

    /** Passes over the waiting commands until one executes nothing.  `last` is where the last pass began. */
    method ProcessPending() returns (ghost tally: Tally, ghost last: nat)
      requires Valid()
      modifies this`records, this`nextResourceId, this`run, this`resourceIds, this`pending, locks, logs
      ensures Valid() && SameTxns(old(Now()), Now()) && NamesGrown(old(resourceIds), resourceIds)
      ensures Accounted(old(pending), pending, tally, txnIds, old(Now()).active, resourceIds,
                        old(Now()).trace, Now().trace)
      ensures Extends(old(run), run) && |old(run)| <= last
      ensures AccessesFor(run, |old(run)|, old(pending), txnIds, resourceIds)
      ensures Passed(run, last, txnIds, resourceIds, pending, |pending|)
    {
      hide After, IsRun, NamesOk, RecordsHold, LabelsOk, Inv, LogHolds, TransactionManager.Valid, NamesGrown,
        Accounted, Passed, Extends, AccessesFor;
      ExtendsItself(run);
      NoAccessYet(run, pending, txnIds, resourceIds);
      last := |run|;
      ghost var s, was := Now(), pending;
      AllKept(was, txnIds, s.active, resourceIds, s.trace);
      NamesGrownRefl(resourceIds);
      tally := Tally(Indices(|was|), [], []);
      var madeProgress, resumed: set<string> := true, {};
      while madeProgress
        invariant Valid() && SameTxns(s, Now()) && NamesGrown(old(resourceIds), resourceIds)
        invariant Accounted(was, pending, tally, txnIds, s.active, resourceIds, s.trace, Now().trace)
        invariant Extends(old(run), run) && |old(run)| <= last
        invariant AccessesFor(run, |old(run)|, was, txnIds, resourceIds)
        invariant !madeProgress ==> Passed(run, last, txnIds, resourceIds, pending, |pending|)
        decreases |pending|, madeProgress
      {
        ghost var ids, run1 := resourceIds, run;
        last := |run|;
        ExtendsGrows(old(run), run);
        madeProgress, resumed, tally := PassOverPending(resumed, was, s, |old(run)|, tally);
        ExtendsTransitive(old(run), run1, run);
        NamesGrownTransitive(old(resourceIds), ids, resourceIds);
      }
    }

    // -------------------------------------------------------------- the commands

    /** BEGIN.  The id counter is not at its wrap-around. */
    method Begin(txnLabel: string) returns (reply: Reply)
      requires Valid() && tm.nextTransactionId < TWO_32
      modifies this`txnIds, this`run, tm, logs
      ensures Valid()
      ensures reply == if txnLabel == "" then Invalid else if txnLabel in old(txnIds) then Exists else Accepted
      ensures reply == Accepted ==>
                && run == old(run) + [Action.Begin] && txnIds == old(txnIds)[txnLabel := old(Now()).nextTxn]
                && LogHolds(older + (old(Now()).log + [Entry(old(Now()).nextTxn, BEGIN)]))
      ensures reply != Accepted ==> run == old(run) && txnIds == old(txnIds)
      ensures tm.nextTransactionId <= old(tm.nextTransactionId) + 1
      ensures old(Quiet()) ==> Quiet()
    {
      hide After, IsRun, NamesOk, RecordsHold, Inv, LogHolds, LabelsOk, TransactionManager.Valid,
        TransactionManager.Active, LockManager.View, Settled;
      if txnLabel == "" {
        return Invalid;
      }
      if txnLabel in txnIds {
        return Exists;
      }
      ghost var s := Now();
      BeginNext(run, txnIds, txnLabel);
      if Quiet() {
        BeginSettles(run, txnIds, resourceIds, pending, txnLabel);
      }
      var t := tm.BeginTransaction();
      txnIds := txnIds[txnLabel := t];
      WriteLog(t, BEGIN, older + s.log);
      assert (older + s.log) + [Entry(t, BEGIN)] == older + (s.log + [Entry(t, BEGIN)]);
      run := run + [Action.Begin];
      reply := Accepted;
    }

    /** READ and WRITE: wait behind the transaction's own waiting commands, else try at once and wait when
        that does not execute. */
    method Submit(cmd: Command) returns (reply: Reply, printed: Option<int>)
      requires Valid()
      modifies this`records, this`nextResourceId, this`run, this`resourceIds, this`pending, locks, logs
      ensures Valid() && SameTxns(old(Now()), Now()) && NamesGrown(old(resourceIds), resourceIds)
      ensures reply == if cmd.txnLabel == "" || cmd.resourceName == "" then Invalid
                       else if cmd.txnLabel !in txnIds then NotFound
                       else if pending == old(pending) then Accepted else Waiting
      ensures reply == Accepted ==> Executes(old(Now()), Now(), cmd, txnIds, resourceIds)
      ensures reply == Waiting ==> pending == old(pending) + [cmd] && Now().trace == old(Now()).trace
      ensures reply == Waiting ==>
                || (exists k :: 0 <= k < |old(pending)| && old(pending)[k].txnLabel == cmd.txnLabel)
                || !Live(txnIds, Now().active, cmd)
                || MustWait(old(Now()), Now(), cmd, txnIds, resourceIds)
      ensures reply == Accepted && cmd.READ? ==> printed == Some(Now().trace[|Now().trace| - 1].value)
      ensures reply == Accepted && cmd.READ? ==>
                printed == Some(Reported(old(Now()).trace, resourceIds, Segments(cmd.resourceName)))
      ensures (reply == Accepted || reply == Waiting)
              && (forall k :: 0 <= k < |old(pending)| ==> old(pending)[k].txnLabel != cmd.txnLabel)
              && Live(txnIds, old(Now()).active, cmd) ==>
                (reply == Accepted <==> MayExecute(old(Now()).locks, old(resourceIds), txnIds[cmd.txnLabel], cmd))
      ensures reply == Waiting && (exists k :: 0 <= k < |old(pending)| && old(pending)[k].txnLabel == cmd.txnLabel) ==>
                run == old(run)
      ensures reply == Accepted ==> forall k :: 0 <= k < |pending| ==> pending[k].txnLabel != cmd.txnLabel
      ensures reply == Invalid || reply == NotFound ==> run == old(run)
      ensures old(Quiet()) ==> Quiet()
      ensures Submitted(old(Shot()), Shot(), cmd)
    {
      hide After, IsRun, NamesOk, RecordsHold, LabelsOk, Inv, LogHolds, NamesGrown, Executes, MustWait,
        TransactionManager.Valid, Settled, Extends, Live, StillBlocked, Attempts, MayExecute, Reported, Segments,
        InitialsOk;
      printed := None;
      NamesGrownRefl(resourceIds);
      if cmd.txnLabel == "" || cmd.resourceName == "" {
        return Invalid, None;
      }
      if cmd.txnLabel !in txnIds {
        return NotFound, None;
      }
      reply := Waiting;
      var behind := HasPendingForTxn(cmd.txnLabel);
      if behind {
        if Quiet() {
          SettledSnoc(run, txnIds, resourceIds, pending, cmd);
        }
        pending := pending + [cmd];
        return;
      }
      ghost var s := Now();
      var executed;
      executed, printed := ExecuteCommand(cmd);
      if Live(txnIds, s.active, cmd) {
        AttemptExtends(old(run), run, cmd, txnIds, resourceIds, executed);
      } else {
        ExtendsItself(run);
      }
      if old(Quiet()) {
        SettledExtends(old(run), run, txnIds, old(resourceIds), resourceIds, pending);
      }
      if executed {
        reply := Accepted;
      } else {
        if Live(txnIds, s.active, cmd) {
          WaitingParts(s, Now(), cmd, txnIds, resourceIds);
        }
        if old(Quiet()) {
          SettledSnoc(run, txnIds, resourceIds, pending, cmd);
        }
        pending := pending + [cmd];
      }
    }

    /** The part COMMIT and ABORT share: the table, the locks, the log. */
    method EndTransaction(t: TxnId, commit: bool) returns (ok: bool)
      requires Valid()
      modifies this`run, tm, locks, logs
      ensures Valid() && (ok <==> t in old(Now()).active)
      ensures run == if ok then old(run) + [Finish(t, commit)] else old(run)
      ensures ok ==> LogHolds(older + (old(Now()).log + [Entry(t, if commit then COMMIT else ABORT)]))
      ensures tm.nextTransactionId == old(tm.nextTransactionId)
    {
      hide After, IsRun, NamesOk, RecordsHold, Inv, LogHolds, LabelsOk, TransactionManager.Valid, LockTable.Apply,
        TransactionManager.Active, LockManager.View;
      ghost var s := Now();
      if t in s.active {
        tm.ActiveIdIsSmall(t);
        FinishNext(run, t, commit);
      }
      if commit {
        ok := tm.CommitTransaction(t);
      } else {
        ok := tm.AbortTransaction(t);
      }
      if !ok {
        return;
      }
      var released := locks.CompleteTransaction(t);
      WriteLog(t, if commit then COMMIT else ABORT, older + s.log);
      ghost var e := Entry(t, if commit then COMMIT else ABORT);
      assert (older + s.log) + [e] == older + (s.log + [e]);
      run := run + [Finish(t, commit)];
    }

    /** COMMIT and ABORT: end the transaction, then let the waiting commands try again.  `ended` is the run
        up to the end of the transaction. */
    method EndCommand(txnLabel: string, commit: bool)
        returns (reply: Reply, ghost ended: seq<Action>, ghost tally: Tally, ghost last: nat)
      requires Valid()
      modifies this`records, this`nextResourceId, this`run, this`resourceIds, this`pending, tm, locks, logs
      ensures Valid() && NamesGrown(old(resourceIds), resourceIds)
      ensures reply == if txnLabel !in txnIds then NotFound
                       else if txnIds[txnLabel] !in old(Now()).active then NotActive else Accepted
      ensures reply == Accepted ==>
                && ended == old(run) + [Finish(txnIds[txnLabel], commit)]
                && SameTxns(After(ended), Now())
                && Accounted(old(pending), pending, tally, txnIds, Now().active, resourceIds,
                             After(ended).trace, Now().trace)
                && Extends(ended, run) && |ended| <= last
                && Passed(run, last, txnIds, resourceIds, pending, |pending|)
                && AccessesFor(run, |ended|, old(pending), txnIds, resourceIds)
      ensures reply != Accepted ==> run == old(run) && pending == old(pending) && resourceIds == old(resourceIds)
      ensures old(Quiet()) || reply == Accepted ==> Quiet()
      ensures tm.nextTransactionId == old(tm.nextTransactionId)
    {
      hide After, IsRun, NamesOk, RecordsHold, Inv, LogHolds, LabelsOk, TransactionManager.Valid, NamesGrown,
        Accounted, Passed, Settled, Extends, AccessesFor;
      NamesGrownRefl(resourceIds);
      ended, tally, last := run, Tally([], [], []), 0;
      if txnLabel !in txnIds {
        return NotFound, ended, tally, last;
      }
      var ok := EndTransaction(txnIds[txnLabel], commit);
      if !ok {
        return NotActive, ended, tally, last;
      }
      reply, ended := Accepted, run;
      tally, last := ProcessPending();
      PassedIsSettled(run, last, txnIds, resourceIds, pending);
    }

    /** SHOW: the value is read without a lock and without a trace. */
    method Show(name: string) returns (printed: Option<int>)
      requires Valid()
      modifies this`records, this`nextResourceId, this`run, this`resourceIds, locks
      ensures Valid() && Grown(old(Now()), Now()) && NamesGrown(old(resourceIds), resourceIds)
      ensures printed.None? <==> name == ""
      ensures printed.Some? && Segments(name) != [] ==>
                Segments(name) in resourceIds && NewValue(Now(), resourceIds[Segments(name)], printed.value)
      ensures printed.Some? ==> printed.value == Reported(Now().trace, resourceIds, Segments(name))
      ensures old(Quiet()) ==> Quiet()
      ensures Creates(old(run), run)
      ensures resourceIds.Keys == old(resourceIds).Keys + (if name == "" then {} else PrefixesOf(Segments(name)))
    {
      hide After, IsRun, NamesOk, RecordsHold, Inv, LogHolds, LabelsOk, TransactionManager.Valid, Growth, Grown,
        NamesGrown, Segments, Settled, Extends, Creates, NewIds, PrefixesOf, Reported, InitialsOk;
      CreatesItself(run);
      GrownRefl(Now());
      NamesGrownRefl(resourceIds);
      if name == "" {
        return None;
      }
      var r := EnsureResource(name);
      GrowthParts(old(Now()), old(resourceIds), Now(), resourceIds, Segments(name));
      CreatesExtends(old(run), run);
      if old(Quiet()) {
        SettledExtends(old(run), run, txnIds, old(resourceIds), resourceIds, pending);
      }
      ValueIsReported(Now(), run, resourceIds, Segments(name), r);
      var value := ReadRecord(r, Now().store);
      printed := Some(value);
    }

    method WriteCheckpoint()
      requires Valid()
      modifies this`run, logs
      ensures Valid() && run == old(run) + [Action.Checkpoint]
      ensures LogHolds(older + (old(Now()).log + [Entry(0, CHECKPOINT)]))
      ensures old(Quiet()) ==> Quiet()
    {
      hide After, IsRun, NamesOk, RecordsHold, Inv, LogHolds, LabelsOk, TransactionManager.Valid, Settled;
      CheckpointNext(run);
      if Quiet() {
        SettledCheckpoint(run, txnIds, resourceIds, pending);
      }
      ghost var log := Now().log;
      WriteLog(0, CHECKPOINT, older + log);
      assert (older + log) + [Entry(0, CHECKPOINT)] == older + (log + [Entry(0, CHECKPOINT)]);
      run := run + [Action.Checkpoint];
    }

    method RecoverFromLog(ghost log: seq<Entry>) returns (redo: seq<LogRecord>, undo: seq<LogRecord>)
      requires LogHolds(log)
      modifies logs
      ensures LogHolds(log + UndoEntries(log))
      ensures Strip(undo) == UndoEntries(log)
      ensures Strip(redo) == Keep(DataEntries(log), CommittedIn(log))
    {
      hide Ascending, WholeLines, ReadAll, UndoEntries, ActiveIn, CommittedIn, RedoOf, Keep, DataEntries;
      ghost var records := logs.Records();
      RedoIsKept(records, CommittedIn(log));
      var recovery := new RecoveryManager(logs);
      recovery.PerformRecovery();
      redo, undo := recovery.redoRecords, recovery.undoRecords;
      StripConcat(records, undo);
    }

    /** RECOVER: end every active transaction, forget what waits, then recover from the log file. */
    method Recover() returns (redo: seq<LogRecord>, undo: seq<LogRecord>)
      requires Valid()
      modifies this`run, this`pending, tm, locks, logs
      ensures Valid() && pending == [] && Quiet()
      ensures run == old(run) + RecoverActions(old(Now()).active, Ascending(ActiveIn(older + old(Now()).log)))
      ensures Now().active == {} && ActiveIn(older + Now().log) == {}
      ensures Strip(undo) == UndoEntries(older + old(Now()).log)
      ensures Strip(redo) == Keep(DataEntries(older + old(Now()).log), CommittedIn(older + old(Now()).log))
      ensures tm.nextTransactionId == old(tm.nextTransactionId)
    {
      hide After, IsRun, NamesOk, RecordsHold, Inv, LogHolds, LabelsOk, TransactionManager.Valid,
        TransactionManager.Active, LockManager.View, Ascending, UndoEntries, ActiveIn, Keep, DataEntries,
        CommittedIn, CompleteAll, RecoverActions, AbortsOf, Settled;
      ghost var s := Now();
      RecoverNext(older, run);
      var activeIds := tm.GetActiveTransactionIds();
      tm.AbortAllTransactions();
      CompleteEach(activeIds);
      pending := [];
      redo, undo := RecoverFromLog(older + s.log);
      assert (older + s.log) + UndoEntries(older + s.log) == older + (s.log + UndoEntries(older + s.log));
      run := run + RecoverActions(s.active, Ascending(ActiveIn(older + s.log)));
      NothingWaits(run, txnIds, resourceIds);
    }

    /** completeTransaction for each of the ids, in their order. */
    method CompleteEach(ids: seq<TxnId>)
      requires locks.Valid()
      modifies locks
      ensures locks.Valid() && locks.View() == CompleteAll(old(locks.View()), ids)
    {
      hide Inv, LockTable.Apply;
      ghost var s := locks.View();
      for i := 0 to |ids|
        invariant locks.Valid() && locks.View() == CompleteAll(s, ids[..i])
      {
        var released := locks.CompleteTransaction(ids[i]);
        assert ids[..i + 1][..i] == ids[..i];
      }
      assert ids[..|ids|] == ids;
    }

    /** One line of input. */
    method ServeLine(line: Input)
      requires Valid() && Quiet() && tm.nextTransactionId < TWO_32
      modifies this, tm, locks, logs
      ensures Valid() && Quiet() && tm.nextTransactionId <= old(tm.nextTransactionId) + 1
      ensures LineEffect(older, line, old(Shot()), Shot())
    {
      hide Valid, Settled, After, Submitted, Accounted, Passed, AccessesFor, Creates, Extends, NamesGrown, SameTxns,
        Grown, NewValue, Executes, MustWait, Live, Ascending, ActiveIn, RecoverActions, PrefixesOf, Segments;
      match line {
        case BeginLine(txnLabel) =>
          var reply := Begin(txnLabel);
        case AccessLine(cmd) =>
          var reply, printed := Submit(cmd);
        case EndLine(txnLabel, commit) =>
          var reply;
          ghost var ended, tally, last;
          reply, ended, tally, last := EndCommand(txnLabel, commit);
        case ShowLine(name) =>
          var printed := Show(name);
        case CheckpointLine =>
          WriteCheckpoint();
        case RecoverLine =>
          var redo, undo := Recover();
        case _ =>
      }
    }

    /** The command loop.  Lines that change nothing (HELP, STATUS, empty and unknown ones) are `OtherLine`.
        `shots` are the states between the lines: each line up to EXIT has its effect, in order. */
    method Serve(lines: seq<Input>) returns (ghost shots: seq<Snapshot>)
      requires Valid() && Quiet() && tm.nextTransactionId + |lines| <= TWO_32
      modifies this, tm, locks, logs
      ensures Valid() && Quiet()
      ensures 1 <= |shots| <= |lines| + 1 && shots[0] == old(Shot()) && shots[|shots| - 1] == Shot()
      ensures |shots| <= |lines| ==> lines[|shots| - 1] == ExitLine
      ensures forall i :: 0 <= i < |shots| - 1 ==>
                lines[i] != ExitLine && LineEffect(older, lines[i], shots[i], shots[i + 1])
      ensures Advances(old(Shot()), Shot())
    {
      hide Valid, Settled, LineEffect, Advances;
      shots := [Shot()];
      AdvancesItself(Shot());
      for i := 0 to |lines|
        invariant Valid() && Quiet() && tm.nextTransactionId + (|lines| - i) <= TWO_32
        invariant |shots| == i + 1 && shots[0] == old(Shot()) && shots[i] == Shot() && Advances(old(Shot()), Shot())
        invariant forall j :: 0 <= j < i ==>
                    lines[j] != ExitLine && LineEffect(older, lines[j], shots[j], shots[j + 1])
      {
        if lines[i].ExitLine? {
          return;
        }
        ghost var before := Shot();
        ServeLine(lines[i]);
        LineAdvances(older, lines[i], before, Shot());
        AdvancesTransitive(old(Shot()), before, Shot());
        shots := shots + [Shot()];
      }
    }
  }

  // ---------------------------------------------------------------- what holds whenever a line has been served

  /** Serializability at every moment of the service. */
  lemma ServiceIsSerializable(c: Scheduler, rest: seq<TxnId>)
    requires c.Valid() && ListsActive(c.Now(), rest)
    ensures var s := c.Now();
            Replay(Some(s.initial), Serial(s.trace, Completions(s.trace) + rest)) == Some(s.store)
  {
    EveryRunIsSerializable(c.run, rest);
  }

  /** What the resource named by `p` is worth after `trace`: the last value written to it, or the value it was
      created with.  A name without segments has a record of its own every time, with 0. */
  ghost function Reported(trace: seq<Event>, ids: Names, p: Path): int {
    if p in ids then LastWritten(trace, ids[p], if p == ["A"] then 10 else 0) else 0
  }

  lemma InitialsReplay(run: seq<Action>)
    requires IsRun(run)
    ensures var s := After(run); Replay(Some(s.initial), s.trace) == Some(s.store)
  {
    RunKeepsOk(run);
    hide TxnsOk, ResourcesOk, LocksOk, TraceOk, Covered, StrictUnder, LogAgrees, After;
  }

  /** Every READ of a named resource reported what was written there last, or else 10 for A and 0 otherwise. */
  lemma ReadsReportLastWritten(c: Scheduler, p: Path, i: nat)
    requires c.Valid() && p in c.resourceIds && i < |c.Now().trace|
    requires c.Now().trace[i].Read? && c.Now().trace[i].res == c.resourceIds[p]
    ensures c.Now().trace[i].value == Reported(c.Now().trace[..i], c.resourceIds, p)
    ensures (forall j :: 0 <= j < i ==> !(c.Now().trace[j].Write? && c.Now().trace[j].res == c.resourceIds[p])) ==>
              c.Now().trace[i].value == if p == ["A"] then 10 else 0
  {
    var s := c.Now();
    InitialsReplay(c.run);
    hide After, IsRun, NamesOk, LabelsOk, Replay;
    ReadsLastWritten(s.initial, s.trace, i);
    if forall j :: 0 <= j < i ==> !(s.trace[j].Write? && s.trace[j].res == c.resourceIds[p]) {
      UnwrittenKeeps(s.trace[..i], c.resourceIds[p], s.initial[c.resourceIds[p]]);
    }
  }

  /** What SHOW reports of a named resource nobody has written. */
  lemma UnwrittenIsReported(trace: seq<Event>, ids: Names, p: Path)
    requires p in ids && forall j :: 0 <= j < |trace| ==> !(trace[j].Write? && trace[j].res == ids[p])
    ensures Reported(trace, ids, p) == if p == ["A"] then 10 else 0
  {
    UnwrittenKeeps(trace, ids[p], if p == ["A"] then 10 else 0);
  }

  /** Strictness by name: after a write on a path, no other transaction reads or writes that path or a longer
      one until the writer has completed. */
  lemma ServiceIsStrictByName(c: Scheduler, p: Path, q: Path, i: nat, j: nat)
    requires c.Valid() && p in c.resourceIds && q in c.resourceIds && p <= q
    requires i < j < |c.Now().trace|
    requires var a, b := c.Now().trace[i], c.Now().trace[j];
             a.Write? && a.res == c.resourceIds[p] && !b.Done? && b.res == c.resourceIds[q] && a.txn != b.txn
    ensures exists k :: i < k < j && IsDone(c.Now().trace[k], c.Now().trace[i].txn)
  {
    AboveIsPrefix(c.resourceIds, c.Now().locks.parent, c.nextResourceId, p, q);
    hide After, Above, NamesOk, IsDone;
    StrictnessInEveryRun(c.run, i, j);
  }

  /** The log file against memory, whatever the file held when the program started: what analysis finds
      incomplete is what is active if and only if every id left open before was given out again or closed by
      RECOVER, and the committed ids are as many as counted if and only if every id committed before was
      committed again. */
  lemma FileAgreesIff(c: Scheduler)
    requires c.Valid()
    ensures var file := Strip(c.logs.Records());
            && (ActiveIn(file) == c.tm.Active() <==> forall t :: t in ActiveIn(c.older) ==> Known(c.run, t))
            && (|CommittedIn(file)| == c.tm.committedCount <==> CommittedIn(c.older) <= CommitTxns(c.Now().trace))
  {
    hide After, IsRun, ActiveIn, CommittedIn, CommitTxns, Known, WholeLines, ReadAll, Inv;
    IncompleteAgreesIff(c.older, c.run);
    CommittedAgreesIff(c.older, c.run);
  }

  /** No name in use has more than one segment. */
  ghost predicate Undotted(ids: Names) {
    forall p :: p in ids ==> |p| == 1
  }

  /** A service without dotted names never replaces a lock by a weaker one, and loses no wake-up. */
  lemma UndottedIsCovering(c: Scheduler)
    requires c.Valid() && Undotted(c.resourceIds)
    ensures Flat(c.Now()) && Covering(c.run, 0)
    ensures forall r :: HeadBlocked(c.Now().locks, r)
  {
    FlatIffUndotted(c.resourceIds, c.Now().locks.parent, c.nextResourceId);
    hide After, IsRun, Covering, HeadBlocked, NamesOk, Undotted, FlatLocks;
    FlatRunsAreCovering(c.run);
    forall r ensures HeadBlocked(c.Now().locks, r) {
      FlatRunsLoseNoWakeup(c.run, r);
    }
  }

  /** At every line boundary of a service whose replacements cover, and in particular without dotted names: the
      first waiting command of each active transaction would be refused, whatever own locks a scan finds. */
  lemma WhoWaitsFirstIsBlocked(c: Scheduler, k: nat, steps: seq<Step>, ok: bool)
    requires c.Valid() && c.Quiet() && (Covering(c.run, 0) || Undotted(c.resourceIds))
    requires k < |c.pending| && FirstOfItsTxn(c.pending, k) && Live(c.txnIds, c.Now().active, c.pending[k])
    ensures var cmd, s := c.pending[k], c.Now();
            && Segments(cmd.resourceName) in c.resourceIds
            && var t, r := c.txnIds[cmd.txnLabel], c.resourceIds[Segments(cmd.resourceName)];
               Serves(s.locks, t, Plan(s.locks.parent, r, ModeOf(WriteOf(cmd))), steps, ok) ==> !ok
  {
    var cmd, s := c.pending[k], c.Now();
    OkParts(c.run);
    hide After, IsRun, Serves, Plan, BlockedCall, Segments, Covering, Undotted, Inv, Acyclic;
    if Undotted(c.resourceIds) {
      UndottedIsCovering(c);
    }
    assert StillBlocked(s.locks, c.txnIds, c.resourceIds, cmd);
    BlockedIsRefused(s.locks, c.txnIds, c.resourceIds, cmd, steps, ok);
  }

  /** Right after a processing the same holds for every command left, not only the first ones, provided the
      replacements since the last pass began cover. */
  lemma WhoIsLeftIsBlocked(c: Scheduler, last: nat, k: nat, steps: seq<Step>, ok: bool)
    requires c.Valid() && (Covering(c.run, last) || Undotted(c.resourceIds)) && k < |c.pending|
    requires Passed(c.run, last, c.txnIds, c.resourceIds, c.pending, |c.pending|)
    ensures var cmd, s := c.pending[k], c.Now();
            && Live(c.txnIds, s.active, cmd) && Segments(cmd.resourceName) in c.resourceIds
            && var t, r := c.txnIds[cmd.txnLabel], c.resourceIds[Segments(cmd.resourceName)];
               Serves(s.locks, t, Plan(s.locks.parent, r, ModeOf(WriteOf(cmd))), steps, ok) ==> !ok
  {
    var cmd, s := c.pending[k], c.Now();
    OkParts(c.run);
    hide After, IsRun, Serves, Plan, BlockedCall, Segments, Covering, Undotted, Inv, Acyclic;
    if Undotted(c.resourceIds) {
      UndottedIsCovering(c);
      CoveringLater(c.run, 0, last);
    }
    assert StillBlocked(s.locks, c.txnIds, c.resourceIds, cmd);
    BlockedIsRefused(s.locks, c.txnIds, c.resourceIds, cmd, steps, ok);
  }

  lemma BlockedIsRefused(locks: Table, labels: Labels, ids: Names, cmd: Command, steps: seq<Step>, ok: bool)
    requires Inv(locks) && Acyclic(locks.parent) && StillBlocked(locks, labels, ids, cmd)
    ensures Segments(cmd.resourceName) in ids
    ensures var t, r := labels[cmd.txnLabel], ids[Segments(cmd.resourceName)];
            Serves(locks, t, Plan(locks.parent, r, ModeOf(WriteOf(cmd))), steps, ok) ==> !ok
  {
    hide Serves, Plan, BlockedCall, Segments, Inv, Acyclic;
    var t, r := labels[cmd.txnLabel], ids[Segments(cmd.resourceName)];
    if Serves(locks, t, Plan(locks.parent, r, ModeOf(WriteOf(cmd))), steps, ok) {
      CallIsGrantedIff(locks, t, r, ModeOf(WriteOf(cmd)), steps, ok);
    }
  }

  lemma NoAccessYet(run: seq<Action>, cmds: seq<Command>, labels: Labels, ids: Names)
    ensures AccessesFor(run, |run|, cmds, labels, ids)
  {
  }

  lemma ExtendsGrows(a: seq<Action>, b: seq<Action>)
    requires Extends(a, b)
    ensures |a| <= |b|
  {
  }

  lemma BeginSettles(run: seq<Action>, labels: Labels, ids: Names, pending: seq<Command>, txnLabel: string)
    requires Settled(run, labels, ids, pending) && txnLabel !in labels && LabelsOk(labels, After(run).nextTxn)
    ensures Settled(run + [Action.Begin], labels[txnLabel := After(run).nextTxn], ids, pending)
  {
    hide Settled, After;
    SettledBegin(run, labels, ids, pending, txnLabel);
  }

  lemma LabelAdded(labels: Labels, next: TxnId, txnLabel: string)
    requires LabelsOk(labels, next) && txnLabel !in labels && next >= 1
    ensures LabelsOk(labels[txnLabel := next], next + 1)
  {
  }

  lemma NextTxnIsPositive(run: seq<Action>)
    requires IsRun(run)
    ensures After(run).nextTxn >= 1
  {
    RunKeepsOk(run);
    assert TxnsOk(After(run));
  }

  lemma BeginNext(run: seq<Action>, labels: Labels, txnLabel: string)
    requires IsRun(run) && LabelsOk(labels, After(run).nextTxn) && txnLabel !in labels
    ensures var s, s' := After(run), After(run + [Action.Begin]);
            && IsRun(run + [Action.Begin])
            && s' == s.(active := s.active + {s.nextTxn}, nextTxn := s.nextTxn + 1,
                        log := s.log + [Entry(s.nextTxn, BEGIN)])
            && LabelsOk(labels[txnLabel := s.nextTxn], s'.nextTxn)
  {
    NextTxnIsPositive(run);
    RunAction(run, Action.Begin);
    hide After, IsRun, LabelsOk;
    LabelAdded(labels, After(run).nextTxn, txnLabel);
  }

  lemma FinishNext(run: seq<Action>, t: TxnId, commit: bool)
    requires IsRun(run) && t in After(run).active
    ensures var a := Finish(t, commit);
            var s, s' := After(run), After(run + [a]);
            && IsRun(run + [a])
            && s' == s.(active := s.active - {t}, locks := LockTable.Apply(s.locks, Complete(t)),
                        committed := if commit then s.committed + 1 else s.committed,
                        aborted := if commit then s.aborted else s.aborted + 1,
                        log := s.log + [Entry(t, if commit then COMMIT else ABORT)],
                        trace := s.trace + [Done(t, commit)])
            && s'.locks.parent == s.locks.parent
  {
    var s := After(run);
    RunAction(run, Finish(t, commit));
    StepAround(s.locks, Complete(t));
    hide After, IsRun, LockTable.Apply;
  }

  lemma {:induction false} CompleteAllParent(locks: Table, ids: seq<TxnId>)
    ensures CompleteAll(locks, ids).parent == locks.parent
  {
    hide LockTable.Apply;
    if ids != [] {
      CompleteAllParent(locks, ids[..|ids| - 1]);
      StepAround(CompleteAll(locks, ids[..|ids| - 1]), Complete(ids[|ids| - 1]));
    }
  }

  lemma RecoverNext(older: seq<Entry>, run: seq<Action>)
    requires IsRun(run)
    ensures var s := After(run);
            var all := run + RecoverActions(s.active, Ascending(ActiveIn(older + s.log)));
            var s' := After(all);
            && IsRun(all) && s'.active == {} && ActiveIn(older + s'.log) == {}
            && s'.nextTxn == s.nextTxn && s'.committed == s.committed && s'.aborted == s.aborted + |s.active|
            && s'.nextRes == s.nextRes && s'.store == s.store && s'.initial == s.initial
            && s'.locks == CompleteAll(s.locks, Ascending(s.active)) && s'.locks.parent == s.locks.parent
            && s'.log == s.log + UndoEntries(older + s.log)
  {
    hide After, IsRun, Ascending, ActiveIn, UndoEntries, CompleteAll;
    RecoverOnFile(older, run);
    CompleteAllParent(After(run).locks, Ascending(After(run).active));
  }

  lemma CheckpointNext(run: seq<Action>)
    requires IsRun(run)
    ensures var s, s' := After(run), After(run + [Action.Checkpoint]);
            && IsRun(run + [Action.Checkpoint]) && s' == s.(log := s.log + [Entry(0, CHECKPOINT)])
  {
    RunAction(run, Action.Checkpoint);
  }

  /** `path` is new and, unless it has no segments, hangs under `up` as its segments say. */
  ghost predicate MayName(ids: Names, path: Path, up: Option<ResId>) {
    && path !in ids
    && if |path| <= 1 then up.None?
       else path[..|path| - 1] in ids && up == Some(ids[path[..|path| - 1]])
  }

  lemma CreateNext(run: seq<Action>, ids: Names, records: map<ResId, seq<char>>, path: Path, up: Option<ResId>,
                   value: Int32)
    requires IsRun(run) && NamesOk(ids, After(run).locks.parent, After(run).nextRes)
    requires RecordsHold(records, After(run).store) && MayName(ids, path, up)
    requires InitialsOk(ids, After(run).initial) && (path != [] ==> value == if path == ["A"] then 10 else 0)
    ensures var a := Create(up, value);
            var s, s' := After(run), After(run + [a]);
            && IsRun(run + [a]) && s' == Perform(s, a)
            && InitialsOk(if path == [] then ids else ids[path := s.nextRes], s'.initial)
            && NamesOk(if path == [] then ids else ids[path := s.nextRes], s'.locks.parent, s'.nextRes)
            && RecordsHold(records[s.nextRes := IntToBytes(value)], s'.store)
            && s' == s.(nextRes := s.nextRes + 1, locks := s'.locks, store := s'.store, initial := s'.initial)
            && s'.locks == if up.Some? then LockTable.Apply(s.locks, SetParent(s.nextRes, up.value)) else s.locks
  {
    hide NamesOk, After, IsRun, Perform, MayName, RecordsHold, LockTable.Apply, InitialsOk;
    var s, a := After(run), Create(up, value);
    ResourcesAreOk(run);
    RunAction(run, a);
    InitialAdded(ids, s, path, up, value);
    assert Allowed(s, a) by {
      ParentIsStored(run, ids, path, up);
    }
    CreateParts(s, up, value);
    RecordWritten(records, s.store, s.nextRes, value);
    NameFits(ids, s, path, up, value);
  }

  /** The value of a record that was just ensured. */
  lemma ValueIsReported(s: Sys, run: seq<Action>, ids: Names, p: Path, r: ResId)
    requires IsRun(run) && NamesOk(ids, After(run).locks.parent, After(run).nextRes)
    requires InitialsOk(ids, After(run).initial) && After(run).trace == s.trace
    requires if p != [] then IsNamed(ids, p, r) else Unused(After(run), r)
    ensures r in After(run).store && After(run).store[r] == Reported(s.trace, ids, p)
  {
    InitialsReplay(run);
    hide After, IsRun, Replay, LastWritten;
    if p != [] {
      StoreIsLastWritten(After(run).initial, s.trace, r);
    } else {
      assert [] in ids ==> NameOk(ids, After(run).locks.parent, []);
    }
  }

  /** Whether a command executes, told on the locks and names before it. */
  lemma AnswerIsByName(s: Sys, ids: Names, run: seq<Action>, ids1: Names, cmd: Command, labels: Labels, r: ResId,
                       s2: Sys, steps: seq<Step>, ok: bool)
    requires IsRun(run) && NamesOk(ids1, After(run).locks.parent, After(run).nextRes)
    requires Grown(s, After(run)) && NamesGrown(ids, ids1) && NewNamesFree(After(run).locks, ids1, ids)
    requires Live(labels, s.active, cmd) && Resolved(After(run).locks, ids1, cmd.resourceName, r)
    requires Accessed(After(run), s2, labels[cmd.txnLabel], r, WriteOf(cmd), steps, ok)
    ensures ok <==> MayExecute(s.locks, ids, labels[cmd.txnLabel], cmd)
  {
    OkParts(run);
    hide After, IsRun, NamesOk, NamesGrown, NewNamesFree, Inv, Acyclic, HierarchyOk, Within, Serves, Plan, Resolved,
      MayExecute;
    var s1, t := After(run), labels[cmd.txnLabel];
    CommandAnswer(s1.locks, ids1, s1.nextRes, t, cmd, r, steps, ok);
    MayStays(s.locks, ids, s1.locks, ids1, t, cmd);
  }

  lemma InitialAdded(ids: Names, s: Sys, path: Path, up: Option<ResId>, value: int)
    requires NamesOk(ids, s.locks.parent, s.nextRes) && InitialsOk(ids, s.initial)
    requires path != [] ==> value == if path == ["A"] then 10 else 0
    ensures InitialsOk(if path == [] then ids else ids[path := s.nextRes], Perform(s, Create(up, value)).initial)
  {
  }

  lemma ParentIsStored(run: seq<Action>, ids: Names, path: Path, up: Option<ResId>)
    requires IsRun(run) && NamesOk(ids, After(run).locks.parent, After(run).nextRes) && MayName(ids, path, up)
    ensures up.Some? ==> up.value in After(run).store
  {
    hide NamesOk, After, IsRun;
    if up.Some? {
      NamedIsStored(run, ids, path[..|path| - 1]);
    }
  }

  lemma CreateParts(s: Sys, up: Option<ResId>, value: int)
    ensures var s' := Perform(s, Create(up, value));
            && s' == s.(nextRes := s.nextRes + 1, locks := s'.locks, store := s.store[s.nextRes := value],
                        initial := s'.initial)
            && (s'.locks == if up.Some? then LockTable.Apply(s.locks, SetParent(s.nextRes, up.value)) else s.locks)
            && (s'.locks.parent == if up.Some? then s.locks.parent[s.nextRes := up.value] else s.locks.parent)
  {
  }

  lemma NameFits(ids: Names, s: Sys, path: Path, up: Option<ResId>, value: int)
    requires NamesOk(ids, s.locks.parent, s.nextRes) && MayName(ids, path, up) && ResourcesOk(s)
    ensures NamesOk(if path == [] then ids else ids[path := s.nextRes],
                    Perform(s, Create(up, value)).locks.parent, s.nextRes + 1)
  {
    CreateParts(s, up, value);
    hide NamesOk, Perform;
    if path == [] {
      NamesStay(ids, s.locks.parent, s.nextRes);
    } else {
      NameCreated(ids, s.locks.parent, s.nextRes, path, Perform(s, Create(up, value)).locks.parent);
    }
  }

  lemma MayBeUnnamed(ids: Names, parent: Parents, next: ResId)
    requires NamesOk(ids, parent, next)
    ensures MayName(ids, [], None)
  {
    assert [] in ids ==> NameOk(ids, parent, []);
  }

  lemma ResourcesAreOk(run: seq<Action>)
    requires IsRun(run)
    ensures ResourcesOk(After(run))
  {
    RunKeepsOk(run);
  }

  ghost predicate IsNamed(ids: Names, p: Path, r: ResId) {
    p in ids && ids[p] == r
  }

  lemma NamedIsStored(run: seq<Action>, ids: Names, p: Path)
    requires IsRun(run) && NamesOk(ids, After(run).locks.parent, After(run).nextRes) && p in ids
    ensures ids[p] != 0 && ids[p] in After(run).store
  {
    ResourcesAreOk(run);
    hide After, IsRun;
  }

  ghost predicate NewValue(s: Sys, r: ResId, v: int) {
    r in s.store && s.store[r] == v
  }

  /** Nobody has locked it either. */
  ghost predicate FreshValue(s: Sys, r: ResId, v: int) {
    NewValue(s, r, v) && LocksOn(s.locks, r) == multiset{}
  }

  /** Every newly named resource is unlocked and has its initial value. */
  ghost predicate NewValues(s: Sys, ids: Names, before: Names) {
    forall p :: p in ids && p !in before ==> FreshValue(s, ids[p], InitialValue(p))
  }

  /** A record nobody refers to and nobody has locked. */
  ghost predicate Unused(s: Sys, r: ResId) {
    r !in s.locks.parent && LocksOn(s.locks, r) == multiset{} && NewValue(s, r, 0)
  }

  /** What ensuring the resources of a path does to the engine and to the names. */
  ghost predicate Growth(s: Sys, ids: Names, s': Sys, ids': Names, p: Path) {
    && Grown(s, s') && NamesGrown(ids, ids')
    && ids'.Keys == ids.Keys + PrefixesOf(p)
    && NewValues(s', ids', ids)
  }

  /** `n` names were added. */
  ghost predicate NewIds(ids: Names, ids': Names, n: int) {
    n == |ids'.Keys| - |ids.Keys|
  }

  /** Where the walk along a path has arrived; 0 before the first segment. */
  ghost predicate Reached(ids: Names, p: Path, last: ResId) {
    if p == [] then last == 0 else IsNamed(ids, p, last)
  }

  lemma GrowthParts(s: Sys, ids: Names, s': Sys, ids': Names, p: Path)
    requires Growth(s, ids, s', ids', p)
    ensures Grown(s, s') && SameTxns(s, s') && NamesGrown(ids, ids')
    ensures ids'.Keys == ids.Keys + PrefixesOf(p)
    ensures NewNamesFree(s'.locks, ids', ids)
  {
    assert forall p :: p in ids' && p !in ids ==> FreshValue(s', ids'[p], InitialValue(p));
  }

  lemma NothingGrown(s: Sys, ids: Names)
    ensures Growth(s, ids, s, ids, [])
  {
    assert PrefixesOf([]) == {};
  }

  lemma LongerPrefixes(path: Path, segment: string)
    ensures PrefixesOf(path + [segment]) == PrefixesOf(path) + {path + [segment]}
  {
    var longer := path + [segment];
    forall k | 1 <= k <= |longer| ensures longer[..k] in PrefixesOf(path) + {longer} {
      if k <= |path| {
        assert longer[..k] == path[..k];
        assert path[..k] in PrefixesOf(path);
      } else {
        assert longer[..k] == longer;
      }
    }
    forall k | 1 <= k <= |path| ensures path[..k] in PrefixesOf(longer) {
      assert longer[..k] == path[..k];
    }
    assert longer[..|longer|] == longer;
  }

  lemma OneMoreSegment(s: Sys, ids: Names, s1: Sys, ids1: Names, s2: Sys, ids2: Names, path: Path, segment: string)
    requires Growth(s, ids, s1, ids1, path) && Grown(s1, s2) && NamesGrown(ids1, ids2)
    requires var longer := path + [segment];
             && ids2.Keys == ids1.Keys + {longer}
             && (longer in ids1 || FreshValue(s2, ids2[longer], InitialValue(longer)))
    ensures Growth(s, ids, s2, ids2, path + [segment])
  {
    hide Grown, NamesGrown, NewValues, FreshValue, PrefixesOf;
    LongerPrefixes(path, segment);
    GrownTransitive(s, s1, s2);
    NamesGrownTransitive(ids, ids1, ids2);
    NewValuesGrown(ids, ids1, ids2, s1, s2, path + [segment]);
  }

  lemma UnnamedGrowth(s: Sys, ids: Names, s1: Sys, s2: Sys, ids1: Names, p: Path)
    requires Growth(s, ids, s1, ids1, p) && Grown(s1, s2)
    ensures Growth(s, ids, s2, ids1, p)
  {
    hide Grown, NamesGrown, NewValues;
    GrownTransitive(s, s1, s2);
    NewValuesStay(s1, s2, ids1, ids);
  }

  lemma UnusedIsStored(s: Sys, r: ResId)
    requires Unused(s, r)
    ensures r in s.store
  {
  }

  lemma NamesGrownTransitive(a: Names, b: Names, c: Names)
    requires NamesGrown(a, b) && NamesGrown(b, c)
    ensures NamesGrown(a, c)
  {
  }

  lemma NewValuesGrown(ids: Names, ids1: Names, ids2: Names, s1: Sys, s2: Sys, path: Path)
    requires NewValues(s1, ids1, ids) && Grown(s1, s2) && NamesGrown(ids1, ids2) && NamesGrown(ids, ids1)
    requires ids2.Keys == ids1.Keys + {path} && (path in ids1 || FreshValue(s2, ids2[path], InitialValue(path)))
    ensures NewValues(s2, ids2, ids)
  {
    forall p | p in ids2 && p !in ids ensures FreshValue(s2, ids2[p], InitialValue(p)) {
      assert p in ids1.Keys + {path};
      if p in ids1 {
        assert FreshValue(s1, ids1[p], InitialValue(p));
      }
    }
  }

  lemma NewValuesStay(s1: Sys, s2: Sys, ids: Names, before: Names)
    requires NewValues(s1, ids, before) && Grown(s1, s2)
    ensures NewValues(s2, ids, before)
  {
    assert forall p :: p in ids && p !in before ==> FreshValue(s1, ids[p], InitialValue(p));
  }

  lemma UnnamedNext(run: seq<Action>)
    requires IsRun(run)
    ensures var s := After(run);
            var s' := Perform(s, Create(None, 0));
            Grown(s, s') && Unused(s', s.nextRes)
  {
    ResourcesAreOk(run);
    hide After, IsRun, Perform;
    CreateGrows(After(run), None, 0);
  }

  lemma NamesGrownRefl(ids: Names)
    ensures NamesGrown(ids, ids)
  {
  }

  lemma GrownRefl(s: Sys)
    ensures Grown(s, s)
  {
  }

  /** Naming the resource that is created next. */
  lemma NameNext(run: seq<Action>, ids: Names, path: Path, last: ResId, value: int)
    requires IsRun(run) && NamesOk(ids, After(run).locks.parent, After(run).nextRes) && path !in ids && path != []
    requires if |path| == 1 then last == 0
             else path[..|path| - 1] in ids && last == ids[path[..|path| - 1]]
    ensures var s := After(run);
            var up := if last != 0 then Some(last) else None;
            var s' := Perform(s, Create(up, value));
            && MayName(ids, path, up)
            && Grown(s, s') && FreshValue(s', s.nextRes, value)
            && NamesGrown(ids, ids[path := s.nextRes])
  {
    ResourcesAreOk(run);
    hide After, IsRun, Perform, ResourcesOk, NamesOk;
    if |path| > 1 {
      NamedIsStored(run, ids, path[..|path| - 1]);
    }
    CreateGrows(After(run), if last != 0 then Some(last) else None, value);
    CreatedValue(After(run), if last != 0 then Some(last) else None, value);
  }

  lemma CreatedValue(s: Sys, up: Option<ResId>, value: int)
    requires Within(s.locks, s.store.Keys) && s.nextRes !in s.store
    ensures FreshValue(Perform(s, Create(up, value)), s.nextRes, value)
  {
  }
}
