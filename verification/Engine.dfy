/** The command engine as a state machine: transactions, resources, locks, store and log together, with
    the history of what was executed. */
module Engine {
  import opened Histories
  import opened Ids
  import opened LockModes
  import opened LockTable
  import opened LockSafety
  import opened LockHierarchy
  import opened LogRecords
  import opened Recovery
  import opened Wrappers

  /** `initial` and `trace` are history only: the value each resource was created with, and the executed
      reads, writes and completions. */
  datatype Sys = Sys(
    active: set<TxnId>,
    nextTxn: nat,
    committed: nat,
    aborted: nat,
    nextRes: nat,
    locks: Table,
    store: Store,
    log: seq<Entry>,
    initial: Store,
    trace: seq<Event>)

  const START := Sys({}, 1, 0, 0, 1, EMPTY, map[], [], map[], [])

  /** `Access` is one executeCommand of an active transaction: a READ (`write` is None) or a WRITE, with
      the lock steps its request made and their answer.  `Disown` is the ABORT record recovery writes for an id
      that an earlier start of the program left open. */
  datatype Action =
    | Begin
    | Create(up: Option<ResId>, value: int)
    | Access(txn: TxnId, res: ResId, write: Option<int>, lockSteps: seq<Step>, ok: bool)
    | Finish(txn: TxnId, commit: bool)
    | Checkpoint
    | Disown(txn: TxnId)

  ghost function ModeOf(write: Option<int>): LockType {
    if write.None? then SHARED else EXCLUSIVE
  }

  ghost predicate Allowed(s: Sys, a: Action) {
    match a
    case Begin => true
    case Create(up, _) => up.Some? ==> up.value in s.store
    case Access(t, r, w, steps, ok) =>
      && t in s.active && r in s.store
      && Serves(s.locks, t, Plan(s.locks.parent, r, ModeOf(w)), steps, ok)
    case Finish(t, _) => t in s.active
    case Checkpoint => true
    case Disown(t) => t !in s.active
  }

  ghost function ValueOf(m: Store, r: ResId): int {
    if r in m then m[r] else 0
  }

  ghost function Execute(s: Sys, t: TxnId, r: ResId, w: Option<int>): Sys {
    match w
    case None => s.(trace := s.trace + [Read(t, r, ValueOf(s.store, r))])
    case Some(v) => s.(store := s.store[r := v],
                       log := s.log + [Entry(t, UPDATE)],
                       trace := s.trace + [Write(t, r, v)])
  }

  ghost function Attach(locks: Table, r: ResId, up: Option<ResId>): Table {
    match up
    case None => locks
    case Some(p) => LockTable.Apply(locks, SetParent(r, p))
  }

  ghost function Perform(s: Sys, a: Action): Sys {
    match a
    case Begin =>
      s.(active := s.active + {s.nextTxn}, nextTxn := s.nextTxn + 1, log := s.log + [Entry(s.nextTxn, BEGIN)])
    case Create(up, v) =>
      s.(nextRes := s.nextRes + 1, locks := Attach(s.locks, s.nextRes, up),
         store := s.store[s.nextRes := v], initial := s.initial[s.nextRes := v])
    case Access(t, r, w, steps, ok) =>
      var locked := s.(locks := Run(s.locks, steps));
      if ok then Execute(locked, t, r, w) else locked
    case Finish(t, commit) =>
      s.(active := s.active - {t}, locks := LockTable.Apply(s.locks, Complete(t)),
         committed := if commit then s.committed + 1 else s.committed,
         aborted := if commit then s.aborted else s.aborted + 1,
         log := s.log + [Entry(t, if commit then COMMIT else ABORT)],
         trace := s.trace + [Done(t, commit)])
    case Checkpoint => s.(log := s.log + [Entry(0, CHECKPOINT)])
    case Disown(t) => s.(log := s.log + [Entry(t, ABORT)])
  }

  ghost function After(actions: seq<Action>): Sys {
    if actions == [] then START else Perform(After(actions[..|actions| - 1]), actions[|actions| - 1])
  }

  /** A run of the engine from its start. */
  ghost predicate IsRun(actions: seq<Action>) {
    actions == [] ||
    (var n := |actions| - 1; IsRun(actions[..n]) && Allowed(After(actions[..n]), actions[n]))
  }

  lemma RunAction(actions: seq<Action>, a: Action)
    ensures After(actions + [a]) == Perform(After(actions), a)
    ensures IsRun(actions + [a]) <==> IsRun(actions) && Allowed(After(actions), a)
  {
    assert (actions + [a])[..|actions|] == actions;
  }

  // ---------------------------------------------------------------- the invariant, part by part

  ghost predicate TxnsOk(s: Sys) {
    && s.nextTxn >= 1
    && (forall t :: t in s.active ==> 1 <= t < s.nextTxn)
    && (forall t :: t in s.locks.completed <==> 1 <= t < s.nextTxn && t !in s.active)
    && s.committed + s.aborted + |s.active| == s.nextTxn - 1
  }

  ghost predicate Within(locks: Table, rs: set<ResId>) {
    locks.locks.Keys <= rs && locks.queues.Keys <= rs && locks.parent.Keys <= rs && locks.parent.Values <= rs
  }

  ghost predicate ResourcesOk(s: Sys) {
    && s.nextRes >= 1
    && (forall r :: r in s.store <==> 1 <= r < s.nextRes)
    && s.initial.Keys == s.store.Keys
    && Within(s.locks, s.store.Keys)
  }

  ghost predicate LocksOk(locks: Table) {
    Inv(locks) && HierarchyOk(locks)
  }

  /** The lock that covers an executed operation: some lock for a read, an exclusive one for a write. */
  ghost predicate CoveredBy(locks: Table, e: Event) {
    !e.Done? ==> Holds(locks, e.txn, e.res) && (e.Write? ==> Lock(e.txn, EXCLUSIVE) in LocksOn(locks, e.res))
  }

  ghost predicate TraceOk(s: Sys) {
    && QuietAfterDone(s.trace)
    && (forall t :: t in s.locks.completed <==> t in Completions(s.trace))
    && (forall i :: 0 <= i < |s.trace| ==> s.trace[i].txn in s.active || s.trace[i].txn in s.locks.completed)
    && (forall i :: 0 <= i < |s.trace| && !s.trace[i].Done? ==> s.trace[i].res in s.store)
  }

  ghost predicate Covered(s: Sys) {
    forall i :: 0 <= i < |s.trace| && s.trace[i].txn in s.active ==> CoveredBy(s.locks, s.trace[i])
  }

  /** A write clashes with every operation on the same resource or below it. */
  ghost predicate Clash(p: Parents, a: Event, b: Event) {
    && !a.Done? && !b.Done?
    && ((a.Write? && Above(p, a.res, b.res)) || (b.Write? && Above(p, b.res, a.res)))
  }

  ghost predicate StrictUnder(p: Parents, es: seq<Event>) {
    forall i, j :: 0 <= i < j < |es| && es[i].txn != es[j].txn && Clash(p, es[i], es[j]) ==> Separated(es, i, j)
  }

  ghost predicate Executed(s: Sys) {
    Replay(Some(s.initial), s.trace) == Some(s.store)
  }

  /** The data records of a log, and the records the writes of a history call for. */
  ghost function DataEntries(log: seq<Entry>): seq<Entry> {
    if log == [] then []
    else
      var e := log[|log| - 1];
      DataEntries(log[..|log| - 1]) + (if IsDataModification(e.kind) then [e] else [])
  }

  ghost function Updates(es: seq<Event>): seq<Entry> {
    if es == [] then []
    else
      var e := es[|es| - 1];
      Updates(es[..|es| - 1]) + (if e.Write? then [Entry(e.txn, UPDATE)] else [])
  }

  ghost function CommitTxns(es: seq<Event>): set<TxnId> {
    if es == [] then {}
    else
      var e := es[|es| - 1];
      CommitTxns(es[..|es| - 1]) + (if e.Done? && e.committed then {e.txn} else {})
  }

  /** What analysis and redo would find in the log is what the engine did. */
  ghost predicate LogAgrees(s: Sys) {
    && ActiveIn(s.log) == s.active
    && CommittedIn(s.log) == CommitTxns(s.trace)
    && |CommittedIn(s.log)| == s.committed
    && DataEntries(s.log) == Updates(s.trace)
  }

  ghost predicate SysOk(s: Sys) {
    && TxnsOk(s)
    && ResourcesOk(s)
    && LocksOk(s.locks)
    && TraceOk(s)
    && Covered(s)
    && StrictUnder(s.locks.parent, s.trace)
    && Executed(s)
    && LogAgrees(s)
  }
}
