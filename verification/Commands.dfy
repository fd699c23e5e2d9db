/** What the command scheduler does, told on values: commands, the events they become, and refusals. */
module Commands {
  import opened AscendingIds
  import opened Decimal
  import opened Engine
  import opened EngineLocks
  import opened EngineSafety
  import opened Histories
  import opened Ids
  import opened LockTable
  import opened LockSafety
  import opened LockHierarchy
  import opened LogRecords
  import opened Recovery
  import opened ResourceNames
  import opened Wrappers

  datatype Command =
    | READ(txnLabel: string, resourceName: string)
    | WRITE(txnLabel: string, resourceName: string, value: Int32)

  type Labels = map<string, TxnId>
  type Names = map<Path, ResId>

  function WriteOf(cmd: Command): Option<int> {
    match cmd
    case READ(_, _) => None
    case WRITE(_, _, v) => Some(v)
  }

  /** The command's transaction is known and active. */
  ghost predicate Live(labels: Labels, active: set<TxnId>, cmd: Command) {
    cmd.txnLabel in labels && labels[cmd.txnLabel] in active
  }

  /** `e` is what executing `cmd` looks like in the history. */
  ghost predicate Matches(cmd: Command, e: Event, labels: Labels, ids: Names) {
    var p := Segments(cmd.resourceName);
    && !e.Done?
    && cmd.txnLabel in labels && e.txn == labels[cmd.txnLabel]
    && (p != [] ==> p in ids && e.res == ids[p])
    && (match cmd case READ(_, _) => e.Read? case WRITE(_, _, v) => e.Write? && e.value == v)
  }

  ghost predicate SameTxns(s: Sys, s': Sys) {
    && s'.active == s.active && s'.nextTxn == s.nextTxn
    && s'.committed == s.committed && s'.aborted == s.aborted
    && s'.locks.completed == s.locks.completed
  }

  // ---------------------------------------------------------------- new resources only

  /** Nothing but new resources: every old one keeps its value, its parent and its locks. */
  ghost predicate Grown(s: Sys, s': Sys) {
    && SameTxns(s, s') && s'.log == s.log && s'.trace == s.trace
    && s'.locks == s.locks.(parent := s'.locks.parent)
    && (forall r :: r in s.store ==> r in s'.store && s'.store[r] == s.store[r])
    && (forall c :: c in s.locks.parent ==> c in s'.locks.parent && s'.locks.parent[c] == s.locks.parent[c])
  }

  lemma CreateGrows(s: Sys, up: Option<ResId>, v: int)
    requires ResourcesOk(s)
    ensures var s' := Perform(s, Create(up, v));
            && Grown(s, s')
            && s'.locks.parent == (if up.Some? then s.locks.parent[s.nextRes := up.value] else s.locks.parent)
  {
  }

  lemma GrownParts(s: Sys, s': Sys)
    requires Grown(s, s')
    ensures SameTxns(s, s') && s'.trace == s.trace
  {
  }

  lemma GrownTransitive(a: Sys, b: Sys, c: Sys)
    requires Grown(a, b) && Grown(b, c)
    ensures Grown(a, c)
  {
  }

  // ---------------------------------------------------------------- refusals

  /** The transaction holds a lock on the resource its command names. */
  ghost predicate Resumes(locks: Table, labels: Labels, ids: Names, cmd: Command) {
    var p := Segments(cmd.resourceName);
    cmd.txnLabel in labels && p != [] && p in ids && Holds(locks, labels[cmd.txnLabel], ids[p])
  }

  /** The lock request of the command, made now, would be refused. */
  ghost predicate StillBlocked(locks: Table, labels: Labels, ids: Names, cmd: Command) {
    var p := Segments(cmd.resourceName);
    && cmd.txnLabel in labels && p in ids
    && BlockedCall(locks, labels[cmd.txnLabel], ids[p], ModeOf(WriteOf(cmd)))
  }

  // ---------------------------------------------------------------- one command

  /** Executing `cmd` adds the one event it stands for. */
  ghost predicate Executes(s: Sys, s': Sys, cmd: Command, labels: Labels, ids: Names) {
    && SameTxns(s, s')
    && s'.trace != [] && s'.trace == s.trace + [s'.trace[|s'.trace| - 1]]
    && Matches(cmd, s'.trace[|s'.trace| - 1], labels, ids)
  }

  /** A command that has to wait executes nothing, and the same request would be refused again. */
  ghost predicate MustWait(s: Sys, s': Sys, cmd: Command, labels: Labels, ids: Names) {
    && SameTxns(s, s') && s'.trace == s.trace && s'.log == s.log && s'.store.Keys >= s.store.Keys
    && Segments(cmd.resourceName) != []
    && StillBlocked(s'.locks, labels, ids, cmd)
  }

  /** `x` is the access `cmd` makes. */
  ghost predicate AccessOf(x: Action, cmd: Command, labels: Labels, ids: Names) {
    var p := Segments(cmd.resourceName);
    && x.Access? && cmd.txnLabel in labels && x.txn == labels[cmd.txnLabel] && x.write == WriteOf(cmd)
    && (p != [] ==> p in ids && x.res == ids[p])
  }

  /** Trying `cmd` creates resources and then makes exactly one access, its own. */
  ghost predicate Attempts(a: seq<Action>, b: seq<Action>, cmd: Command, labels: Labels, ids: Names, ok: bool) {
    && |a| < |b| && Creates(a, b[..|b| - 1])
    && AccessOf(b[|b| - 1], cmd, labels, ids) && b[|b| - 1].ok == ok
  }

  lemma AttemptExtends(a: seq<Action>, b: seq<Action>, cmd: Command, labels: Labels, ids: Names, ok: bool)
    requires Attempts(a, b, cmd, labels, ids, ok)
    ensures Extends(a, b)
  {
    var n := |b| - 1;
    assert b == b[..n] + [b[n]];
    CreatesExtends(a, b[..n]);
    ExtendsSnoc(a, b[..n], b[n]);
  }

  lemma CreatesThenAttempts(a: seq<Action>, b: seq<Action>, c: seq<Action>, cmd: Command, labels: Labels, ids: Names,
                            ok: bool)
    requires Creates(a, b) && Attempts(b, c, cmd, labels, ids, ok)
    ensures Attempts(a, c, cmd, labels, ids, ok)
  {
    hide AccessOf;
    CreatesTransitive(a, b, c[..|c| - 1]);
  }

  lemma AttemptMade(a: seq<Action>, b: seq<Action>, x: Action, cmd: Command, labels: Labels, ids: Names,
                    locks: Table, r: ResId)
    requires Creates(a, b) && Resolved(locks, ids, cmd.resourceName, r)
    requires x.Access? && cmd.txnLabel in labels && x.txn == labels[cmd.txnLabel]
    requires x.write == WriteOf(cmd) && x.res == r
    ensures Attempts(a, b + [x], cmd, labels, ids, x.ok)
  {
    hide Creates, Segments;
    assert (b + [x])[..|b|] == b;
    assert |a| <= |b| by {
      CreatesGrows(a, b);
    }
  }

  lemma CreatesGrows(a: seq<Action>, b: seq<Action>)
    requires Creates(a, b)
    ensures |a| <= |b|
  {
  }

  /** Every access from `from` on is made for one of the commands. */
  ghost predicate AccessesFor(run: seq<Action>, from: nat, cmds: seq<Command>, labels: Labels, ids: Names) {
    forall k :: from <= k < |run| && run[k].Access? ==> MadeFor(run[k], cmds, labels, ids)
  }

  ghost predicate MadeFor(x: Action, cmds: seq<Command>, labels: Labels, ids: Names) {
    exists j :: 0 <= j < |cmds| && AccessOf(x, cmds[j], labels, ids)
  }

  lemma MadeForGrown(x: Action, cmds: seq<Command>, labels: Labels, ids: Names, ids': Names)
    requires MadeFor(x, cmds, labels, ids) && NamesGrown(ids, ids')
    ensures MadeFor(x, cmds, labels, ids')
  {
    hide Segments;
    var j :| 0 <= j < |cmds| && AccessOf(x, cmds[j], labels, ids);
    assert AccessOf(x, cmds[j], labels, ids');
  }

  lemma OneMoreAttempt(a: seq<Action>, b: seq<Action>, from: nat, cmds: seq<Command>, labels: Labels,
                       ids: Names, ids': Names, j: nat, ok: bool)
    requires AccessesFor(a, from, cmds, labels, ids) && NamesGrown(ids, ids') && j < |cmds|
    requires Attempts(a, b, cmds[j], labels, ids', ok)
    ensures AccessesFor(b, from, cmds, labels, ids')
  {
    hide MadeFor, AccessOf, NamesGrown;
    var n := |b| - 1;
    forall k | from <= k < |b| && b[k].Access? ensures MadeFor(b[k], cmds, labels, ids') {
      if k < |a| {
        assert b[k] == b[..n][..|a|][k] == a[k];
        MadeForGrown(a[k], cmds, labels, ids, ids');
      } else if k == n {
        OwnAccess(b[n], cmds, labels, ids', j);
      }
    }
  }

  lemma OwnAccess(x: Action, cmds: seq<Command>, labels: Labels, ids: Names, j: nat)
    requires j < |cmds| && AccessOf(x, cmds[j], labels, ids)
    ensures MadeFor(x, cmds, labels, ids)
  {
  }

  /** One access to a resource: its lock steps, and the event when they were granted. */
  ghost predicate Accessed(s: Sys, s': Sys, t: TxnId, r: ResId, w: Option<int>, steps: seq<Step>, ok: bool) {
    && SameTxns(s, s') && s'.nextRes == s.nextRes && s'.initial == s.initial && r in s.store
    && Serves(s.locks, t, Plan(s.locks.parent, r, ModeOf(w)), steps, ok)
    && s'.locks == Run(s.locks, steps) && s'.locks.parent == s.locks.parent
    && s'.trace == (if !ok then s.trace
                    else s.trace + [if w.None? then Read(t, r, s.store[r]) else Write(t, r, w.value)])
    && s'.store == (if ok && w.Some? then s.store[r := w.value] else s.store)
    && s'.log == (if ok && w.Some? then s.log + [Entry(t, UPDATE)] else s.log)
  }

  lemma ExecutedEvent(s: Sys, s': Sys, cmd: Command, labels: Labels, ids: Names) returns (e: Event)
    requires Executes(s, s', cmd, labels, ids)
    ensures s'.trace == s.trace + [e] && Matches(cmd, e, labels, ids)
  {
    e := s'.trace[|s'.trace| - 1];
  }

  lemma WaitingParts(s: Sys, s': Sys, cmd: Command, labels: Labels, ids: Names)
    requires MustWait(s, s', cmd, labels, ids)
    ensures s'.trace == s.trace && StillBlocked(s'.locks, labels, ids, cmd)
  {
  }

  lemma AccessNext(run: seq<Action>, t: TxnId, r: ResId, w: Option<int>, steps: seq<Step>, ok: bool)
    requires IsRun(run)
    requires var s := After(run);
             t in s.active && r in s.store && Serves(s.locks, t, Plan(s.locks.parent, r, ModeOf(w)), steps, ok)
    ensures var a := Access(t, r, w, steps, ok);
            IsRun(run + [a]) && Accessed(After(run), After(run + [a]), t, r, w, steps, ok)
  {
    var s := After(run);
    RunKeepsOk(run);
    RunAction(run, Access(t, r, w, steps, ok));
    AccessLocks(s.locks, t, r, w, steps, ok);
    hide After, IsRun, Run, SysOk, Serves, LocksOk, CoveredBy;
  }

  /** The resource of a command's name: the named one, or a fresh one for a name without segments. */
  ghost predicate Resolved(locks: Table, ids: Names, name: string, r: ResId) {
    var p := Segments(name);
    if p != [] then p in ids && ids[p] == r else r !in locks.parent && LocksOn(locks, r) == multiset{}
  }

  lemma LocksOfActive(s: Sys, t: TxnId)
    requires SysOk(s) && t in s.active
    ensures t !in s.locks.completed && Inv(s.locks) && Acyclic(s.locks.parent)
  {
    hide Inv, Acyclic, TraceOk, Covered, StrictUnder, Executed, LogAgrees, ResourcesOk;
  }

  /** A refused access, after the resource of its name was ensured. */
  lemma RefusalMustWait(s: Sys, s1: Sys, s2: Sys, cmd: Command, labels: Labels, ids: Names, r: ResId, steps: seq<Step>)
    requires Grown(s, s1) && SysOk(s1) && Live(labels, s.active, cmd)
    requires Resolved(s1.locks, ids, cmd.resourceName, r)
    requires Accessed(s1, s2, labels[cmd.txnLabel], r, WriteOf(cmd), steps, false)
    ensures MustWait(s, s2, cmd, labels, ids) && SameTxns(s, s2)
  {
    var t, m := labels[cmd.txnLabel], ModeOf(WriteOf(cmd));
    hide SysOk, Run, Serves, Plan, Inv, BlockedCall, Segments, Acyclic;
    LocksOfActive(s1, t);
    CallIsGrantedIff(s1.locks, t, r, m, steps, false);
    OwnCallsKeepBlocked(s1.locks, t, r, m, steps, false, r, m);
    if Segments(cmd.resourceName) == [] {
      UnlockedIsFree(s1.locks, t, r, m);
    }
  }

  /** A granted access, after the resource of its name was ensured. */
  lemma GrantExecutes(s: Sys, s1: Sys, s2: Sys, cmd: Command, labels: Labels, ids: Names, r: ResId, steps: seq<Step>)
    requires Grown(s, s1) && cmd.txnLabel in labels && Resolved(s1.locks, ids, cmd.resourceName, r)
    requires Accessed(s1, s2, labels[cmd.txnLabel], r, WriteOf(cmd), steps, true)
    ensures Executes(s, s2, cmd, labels, ids) && SameTxns(s, s2)
    ensures cmd.READ? ==> s2.trace[|s2.trace| - 1].value == s1.store[r]
  {
    hide Segments, Run, Serves;
  }

  lemma GrownThenExecutes(s: Sys, s1: Sys, s2: Sys, cmd: Command, labels: Labels, ids: Names)
    requires Grown(s, s1) && Executes(s1, s2, cmd, labels, ids)
    ensures Executes(s, s2, cmd, labels, ids)
  {
  }

  lemma GrownThenMustWait(s: Sys, s1: Sys, s2: Sys, cmd: Command, labels: Labels, ids: Names)
    requires Grown(s, s1) && MustWait(s1, s2, cmd, labels, ids)
    ensures MustWait(s, s2, cmd, labels, ids)
  {
    hide StillBlocked, Segments;
  }

  // ---------------------------------------------------------------- what became of the waiting commands

  /** Positions in the list of waiting commands, by what became of them. */
  datatype Tally = Tally(kept: seq<nat>, done: seq<nat>, dropped: seq<nat>)

  ghost function Indices(n: nat): (s: seq<nat>)
    ensures |s| == n && forall i :: 0 <= i < n ==> s[i] == i
  {
    seq(n, i => i)
  }

  /** Every command is still waiting, in its old order, or was executed once, as the history shows in order,
      or was dropped because its transaction is not active. */
  ghost predicate Accounted(was: seq<Command>, pending: seq<Command>, tally: Tally,
                            labels: Labels, active: set<TxnId>, ids: Names,
                            before: seq<Event>, after: seq<Event>) {
    && multiset(tally.kept) + multiset(tally.done) + multiset(tally.dropped) == multiset(Indices(|was|))
    && StrictlySorted(tally.kept) && |tally.kept| == |pending|
    && (forall k :: 0 <= k < |pending| ==> tally.kept[k] < |was| && pending[k] == was[tally.kept[k]])
    && (forall k :: 0 <= k < |tally.dropped| ==>
          tally.dropped[k] < |was| && !Live(labels, active, was[tally.dropped[k]]))
    && |after| == |before| + |tally.done| && before <= after
    && (forall k :: 0 <= k < |tally.done| ==>
          tally.done[k] < |was| && Matches(was[tally.done[k]], after[|before| + k], labels, ids))
  }

  /** What is known of the first `i` waiting commands when a pass that began at action `from` has executed none:
      they are live and, if the replacements since then cover, their requests would be refused now. */
  ghost predicate Passed(run: seq<Action>, from: nat, labels: Labels, ids: Names, pending: seq<Command>, i: nat) {
    && i <= |pending| && from <= |run|
    && (forall k :: 0 <= k < i ==> Live(labels, After(run).active, pending[k]))
    && (Covering(run, from) ==> forall k :: 0 <= k < i ==> StillBlocked(After(run).locks, labels, ids, pending[k]))
  }

  lemma StillBlockedStays(a: Table, b: Table, labels: Labels, ids: Names, ids': Names, cmd: Command)
    requires StillBlocked(a, labels, ids, cmd) && KeepsBlocked(a, b) && NamesGrown(ids, ids')
    ensures StillBlocked(b, labels, ids', cmd)
  {
    hide BlockedCall, Segments;
  }

  lemma PassedStays(a: seq<Action>, b: seq<Action>, from: nat, labels: Labels, ids: Names, ids': Names,
                    pending: seq<Command>, i: nat)
    requires Passed(a, from, labels, ids, pending, i) && IsRun(b) && Extends(a, b)
    requires SameTxns(After(a), After(b)) && NamesGrown(ids, ids')
    ensures Passed(b, from, labels, ids', pending, i)
  {
    hide StillBlocked, NamesGrown, After, IsRun, Covering, KeepsBlocked;
    if Covering(b, from) {
      RefusalsLast(a, b, from);
      forall k | 0 <= k < i ensures StillBlocked(After(b).locks, labels, ids', pending[k]) {
        StillBlockedStays(After(a).locks, After(b).locks, labels, ids, ids', pending[k]);
      }
    }
  }

  lemma PassedOneMore(a: seq<Action>, b: seq<Action>, from: nat, labels: Labels, ids: Names, ids': Names,
                      pending: seq<Command>, i: nat)
    requires Passed(a, from, labels, ids, pending, i) && i < |pending|
    requires IsRun(b) && Extends(a, b) && NamesGrown(ids, ids')
    requires Live(labels, After(a).active, pending[i]) && MustWait(After(a), After(b), pending[i], labels, ids')
    ensures Passed(b, from, labels, ids', pending, i + 1)
  {
    hide StillBlocked, After, IsRun, Covering, Segments, Extends, NamesGrown;
    PassedStays(a, b, from, labels, ids, ids', pending, i);
  }

  lemma NonePassed(run: seq<Action>, labels: Labels, ids: Names, pending: seq<Command>)
    ensures Passed(run, |run|, labels, ids, pending, 0)
  {
  }

  lemma PassedDrop(run: seq<Action>, from: nat, labels: Labels, ids: Names, pending: seq<Command>, i: nat)
    requires Passed(run, from, labels, ids, pending, i) && i < |pending|
    ensures Passed(run, from, labels, ids, Without<Command>(pending, i), i)
  {
    hide StillBlocked, Live, After, Covering;
  }

  // ---------------------------------------------------------------- between two lines of input

  ghost predicate FirstOfItsTxn(pending: seq<Command>, k: nat)
    requires k < |pending|
  {
    forall j :: 0 <= j < k ==> pending[j].txnLabel != pending[k].txnLabel
  }

  /** Every waiting command has a known label and, as long as all replacements cover, the first waiting command
      of each active transaction would be refused. */
  ghost predicate Settled(run: seq<Action>, labels: Labels, ids: Names, pending: seq<Command>) {
    && (forall k :: 0 <= k < |pending| ==> pending[k].txnLabel in labels)
    && (Covering(run, 0) ==> FirstsBlocked(After(run), labels, ids, pending))
  }

  ghost predicate FirstsBlocked(s: Sys, labels: Labels, ids: Names, pending: seq<Command>) {
    forall k :: 0 <= k < |pending| && FirstOfItsTxn(pending, k) && Live(labels, s.active, pending[k]) ==>
      StillBlocked(s.locks, labels, ids, pending[k])
  }

  lemma NothingWaits(run: seq<Action>, labels: Labels, ids: Names)
    ensures Settled(run, labels, ids, [])
  {
  }

  lemma PassedIsSettled(run: seq<Action>, from: nat, labels: Labels, ids: Names, pending: seq<Command>)
    requires Passed(run, from, labels, ids, pending, |pending|)
    ensures Settled(run, labels, ids, pending)
  {
    hide StillBlocked, After, Covering;
    if Covering(run, 0) {
      CoveringLater(run, 0, from);
    }
  }

  lemma SettledExtends(a: seq<Action>, b: seq<Action>, labels: Labels, ids: Names, ids': Names, pending: seq<Command>)
    requires Settled(a, labels, ids, pending) && IsRun(b) && Extends(a, b)
    requires After(b).active == After(a).active && NamesGrown(ids, ids')
    ensures Settled(b, labels, ids', pending)
  {
    hide StillBlocked, NamesGrown, After, IsRun, Covering, KeepsBlocked, Live, FirstOfItsTxn;
    if Covering(b, 0) {
      RefusalsLast(a, b, 0);
      forall k | 0 <= k < |pending| && FirstOfItsTxn(pending, k) && Live(labels, After(b).active, pending[k])
        ensures StillBlocked(After(b).locks, labels, ids', pending[k]) {
        StillBlockedStays(After(a).locks, After(b).locks, labels, ids, ids', pending[k]);
      }
    }
  }

  /** A command joins the list: behind one of its transaction, of a transaction that is not active, or refused. */
  lemma SettledSnoc(run: seq<Action>, labels: Labels, ids: Names, pending: seq<Command>, cmd: Command)
    requires Settled(run, labels, ids, pending) && cmd.txnLabel in labels
    requires || (exists k :: 0 <= k < |pending| && pending[k].txnLabel == cmd.txnLabel)
             || !Live(labels, After(run).active, cmd)
             || StillBlocked(After(run).locks, labels, ids, cmd)
    ensures Settled(run, labels, ids, pending + [cmd])
  {
    hide StillBlocked, After, Covering, Live;
    var more, s := pending + [cmd], After(run);
    if Covering(run, 0) {
      forall k | 0 <= k < |more| && FirstOfItsTxn(more, k) && Live(labels, s.active, more[k])
        ensures StillBlocked(s.locks, labels, ids, more[k]) {
        assert forall j :: 0 <= j < |pending| ==> more[j] == pending[j];
        if k < |pending| {
          assert FirstOfItsTxn(pending, k);
        } else {
          assert forall j :: 0 <= j < |pending| ==> pending[j].txnLabel == more[j].txnLabel != cmd.txnLabel;
        }
      }
    }
  }

  lemma CoveringBefore(run: seq<Action>, a: Action)
    requires Covering(run + [a], 0)
    ensures Covering(run, 0)
  {
    assert (run + [a])[..|run|] == run;
  }

  /** A new transaction has no waiting command, and changes no lock. */
  lemma SettledBegin(run: seq<Action>, labels: Labels, ids: Names, pending: seq<Command>, txnLabel: string)
    requires Settled(run, labels, ids, pending) && txnLabel !in labels
    requires forall l :: l in labels ==> labels[l] < After(run).nextTxn
    ensures Settled(run + [Action.Begin], labels[txnLabel := After(run).nextTxn], ids, pending)
  {
    RunAction(run, Action.Begin);
    hide Covering, BlockedCall, Segments, After;
    var s, s', more := After(run), After(run + [Action.Begin]), labels[txnLabel := After(run).nextTxn];
    assert s'.active == s.active + {s.nextTxn} && s'.locks == s.locks;
    if Covering(run + [Action.Begin], 0) {
      CoveringBefore(run, Action.Begin);
      forall k | 0 <= k < |pending| && FirstOfItsTxn(pending, k) && Live(more, s'.active, pending[k])
        ensures StillBlocked(s'.locks, more, ids, pending[k]) {
        assert Live(labels, s.active, pending[k]);
        assert StillBlocked(s.locks, labels, ids, pending[k]);
      }
    }
  }

  lemma SettledCheckpoint(run: seq<Action>, labels: Labels, ids: Names, pending: seq<Command>)
    requires Settled(run, labels, ids, pending)
    ensures Settled(run + [Action.Checkpoint], labels, ids, pending)
  {
    RunAction(run, Action.Checkpoint);
    hide Covering, StillBlocked, After, Live;
    if Covering(run + [Action.Checkpoint], 0) {
      CoveringBefore(run, Action.Checkpoint);
    }
  }

  // ---------------------------------------------------------------- the account of one processing

  lemma AllKept(was: seq<Command>, labels: Labels, active: set<TxnId>, ids: Names, trace: seq<Event>)
    ensures Accounted(was, was, Tally(Indices(|was|), [], []), labels, active, ids, trace, trace)
  {
    assert multiset(Indices(|was|)) + multiset([]) + multiset([]) == multiset(Indices(|was|));
  }

  lemma MatchesGrown(cmd: Command, e: Event, labels: Labels, ids: Names, ids': Names)
    requires Matches(cmd, e, labels, ids) && NamesGrown(ids, ids')
    ensures Matches(cmd, e, labels, ids')
  {
  }

  lemma AccountedGrown(was: seq<Command>, pending: seq<Command>, tally: Tally, labels: Labels, active: set<TxnId>,
                       ids: Names, ids': Names, before: seq<Event>, after: seq<Event>)
    requires Accounted(was, pending, tally, labels, active, ids, before, after) && NamesGrown(ids, ids')
    ensures Accounted(was, pending, tally, labels, active, ids', before, after)
  {
    hide Matches, NamesGrown, StrictlySorted;
    forall k | 0 <= k < |tally.done| ensures Matches(was[tally.done[k]], after[|before| + k], labels, ids') {
      MatchesGrown(was[tally.done[k]], after[|before| + k], labels, ids, ids');
    }
  }

  ghost function Without<T>(s: seq<T>, i: nat): seq<T>
    requires i < |s|
  {
    s[..i] + s[i + 1..]
  }

  /** Since `before`, commands were executed in the order they wait, all of them ahead of position `i` of the
      ones still waiting. */
  ghost predicate PassOrder(before: Tally, now: Tally, i: nat) {
    && |before.done| <= |now.done| && before.done == now.done[..|before.done|]
    && StrictlySorted(now.done[|before.done|..])
    && (forall d, k :: |before.done| <= d < |now.done| && i <= k < |now.kept| ==> now.done[d] < now.kept[k])
  }

  lemma PassOrderStart(now: Tally)
    ensures PassOrder(now, now, 0)
  {
    assert now.done[|now.done|..] == [];
  }

  lemma PassOrderNext(before: Tally, now: Tally, i: nat)
    requires PassOrder(before, now, i)
    ensures PassOrder(before, now, i + 1)
  {
  }

  lemma PassOrderDrop(before: Tally, now: Tally, i: nat, dropped: seq<nat>)
    requires PassOrder(before, now, i) && i < |now.kept|
    ensures PassOrder(before, now.(kept := Without<nat>(now.kept, i), dropped := dropped), i)
  {
  }

  lemma SortedSnoc(s: seq<nat>, x: nat)
    requires StrictlySorted(s) && forall d :: 0 <= d < |s| ==> s[d] < x
    ensures StrictlySorted(s + [x])
  {
  }

  lemma PassOrderExecute(before: Tally, now: Tally, i: nat)
    requires PassOrder(before, now, i) && i < |now.kept| && StrictlySorted(now.kept)
    ensures PassOrder(before, now.(kept := Without<nat>(now.kept, i), done := now.done + [now.kept[i]]), i)
  {
    DoneBeforeRest(now.done, |before.done|, now.kept, i);
    hide Without, StrictlySorted;
    DoneSnoc(now.done, |before.done|, now.kept[i]);
    DoneIsSorted(now.done, |before.done|, now.kept[i]);
  }

  /** What is executed next comes after everything executed since `n` and before everything left. */
  lemma DoneBeforeRest(done: seq<nat>, n: nat, kept: seq<nat>, i: nat)
    requires i < |kept| && StrictlySorted(kept)
    requires forall d, k :: n <= d < |done| && i <= k < |kept| ==> done[d] < kept[k]
    ensures forall d, k :: n <= d < |done + [kept[i]]| && i <= k < |Without<nat>(kept, i)| ==>
                             (done + [kept[i]])[d] < Without<nat>(kept, i)[k]
  {
  }

  lemma DoneIsSorted(done: seq<nat>, n: nat, x: nat)
    requires n <= |done| && StrictlySorted(done[n..]) && forall d :: n <= d < |done| ==> done[d] < x
    ensures StrictlySorted((done + [x])[n..])
  {
    hide StrictlySorted;
    DoneSnoc(done, n, x);
    assert forall d :: 0 <= d < |done[n..]| ==> done[n..][d] == done[n + d];
    SortedSnoc(done[n..], x);
  }

  lemma DoneSnoc(done: seq<nat>, n: nat, x: nat)
    requires n <= |done|
    ensures (done + [x])[..n] == done[..n] && (done + [x])[n..] == done[n..] + [x]
  {
  }

  lemma WithoutKept(was: seq<Command>, pending: seq<Command>, kept: seq<nat>, i: nat)
    requires StrictlySorted(kept) && |kept| == |pending| && i < |kept|
    requires forall k :: 0 <= k < |pending| ==> kept[k] < |was| && pending[k] == was[kept[k]]
    ensures StrictlySorted(Without<nat>(kept, i)) && |Without<nat>(kept, i)| == |Without<Command>(pending, i)|
    ensures forall k :: 0 <= k < |Without<Command>(pending, i)| ==>
              Without<nat>(kept, i)[k] < |was| && Without<Command>(pending, i)[k] == was[Without<nat>(kept, i)[k]]
    ensures multiset(kept) == multiset(Without<nat>(kept, i)) + multiset{kept[i]}
  {
    assert kept == kept[..i] + [kept[i]] + kept[i + 1..];
  }

  lemma DropOne(was: seq<Command>, pending: seq<Command>, tally: Tally, labels: Labels, active: set<TxnId>,
                ids: Names, before: seq<Event>, after: seq<Event>, i: nat)
      returns (next: Tally)
    requires Accounted(was, pending, tally, labels, active, ids, before, after)
    requires i < |pending| && !Live(labels, active, pending[i])
    ensures i < |tally.kept|
    ensures next == tally.(kept := Without<nat>(tally.kept, i), dropped := tally.dropped + [tally.kept[i]])
    ensures Accounted(was, Without<Command>(pending, i), next, labels, active, ids, before, after)
  {
    hide Matches, StrictlySorted, Live, Without;
    WithoutKept(was, pending, tally.kept, i);
    var x: nat, rest: seq<nat> := tally.kept[i], Without<nat>(tally.kept, i);
    assert multiset(tally.dropped + [x]) == multiset(tally.dropped) + multiset{x};
    assert multiset(rest) + multiset{x} == multiset(tally.kept);
    assert x < |was| && pending[i] == was[x];
    next := tally.(kept := rest, dropped := tally.dropped + [x]);
  }

  lemma ExecuteOne(was: seq<Command>, pending: seq<Command>, tally: Tally, labels: Labels, active: set<TxnId>,
                   ids: Names, before: seq<Event>, after: seq<Event>, i: nat, e: Event)
      returns (next: Tally)
    requires Accounted(was, pending, tally, labels, active, ids, before, after)
    requires i < |pending| && Matches(pending[i], e, labels, ids)
    ensures i < |tally.kept| && StrictlySorted(tally.kept)
    ensures next == tally.(kept := Without<nat>(tally.kept, i), done := tally.done + [tally.kept[i]])
    ensures Accounted(was, Without<Command>(pending, i), next, labels, active, ids, before, after + [e])
  {
    hide Matches, StrictlySorted, Live, Without;
    WithoutKept(was, pending, tally.kept, i);
    var x: nat, rest: seq<nat> := tally.kept[i], Without<nat>(tally.kept, i);
    assert multiset(tally.done + [x]) == multiset(tally.done) + multiset{x};
    assert multiset(rest) + multiset{x} == multiset(tally.kept);
    assert x < |was| && pending[i] == was[x];
    next := tally.(kept := rest, done := tally.done + [x]);
  }

  // ---------------------------------------------------------------- one pass

  /** Where a pass stands before position `i`.  `was` and `s` are the commands and the state when the passes
      began, `before` the account when this pass began at action `from`, `now` the account so far. */
  ghost predicate PassState(was: seq<Command>, s: Sys, before: Tally, from: nat, labels: Labels,
                            now: Tally, run: seq<Action>, ids: Names, pending: seq<Command>, i: nat, progress: bool,
                            start: nat) {
    && AccessesFor(run, start, was, labels, ids)
    && Accounted(was, pending, now, labels, s.active, ids, s.trace, After(run).trace)
    && SameTxns(s, After(run))
    && PassOrder(before, now, i) && (progress <==> |now.done| > |before.done|)
    && (!progress ==> Passed(run, from, labels, ids, pending, i))
  }

  lemma PassStarts(was: seq<Command>, s: Sys, now: Tally, labels: Labels, run: seq<Action>, ids: Names,
                   pending: seq<Command>, start: nat)
    requires Accounted(was, pending, now, labels, s.active, ids, s.trace, After(run).trace) && SameTxns(s, After(run))
    requires AccessesFor(run, start, was, labels, ids)
    ensures PassState(was, s, now, |run|, labels, now, run, ids, pending, 0, false, start)
  {
    hide AccessesFor, Accounted, After, PassOrder, Passed;
    PassOrderStart(now);
    NonePassed(run, labels, ids, pending);
  }

  lemma PassDrops(was: seq<Command>, s: Sys, before: Tally, from: nat, labels: Labels,
                  now: Tally, run: seq<Action>, ids: Names, pending: seq<Command>, i: nat, progress: bool, start: nat)
      returns (next: Tally)
    requires PassState(was, s, before, from, labels, now, run, ids, pending, i, progress, start) && i < |pending|
    requires !Live(labels, After(run).active, pending[i])
    ensures PassState(was, s, before, from, labels, next, run, ids, Without<Command>(pending, i), i, progress, start)
  {
    hide AccessesFor, Accounted, After, PassOrder, Passed, Live, Without;
    next := DropOne(was, pending, now, labels, s.active, ids, s.trace, After(run).trace, i);
    PassOrderDrop(before, now, i, next.dropped);
    if !progress {
      PassedDrop(run, from, labels, ids, pending, i);
    }
  }

  lemma PassExecutes(was: seq<Command>, s: Sys, before: Tally, from: nat, labels: Labels,
                     now: Tally, a: seq<Action>, b: seq<Action>, ids: Names, ids': Names,
                     pending: seq<Command>, i: nat, progress: bool, start: nat)
      returns (next: Tally)
    requires PassState(was, s, before, from, labels, now, a, ids, pending, i, progress, start) && i < |pending|
    requires NamesGrown(ids, ids') && Executes(After(a), After(b), pending[i], labels, ids')
    requires Attempts(a, b, pending[i], labels, ids', true)
    ensures PassState(was, s, before, from, labels, next, b, ids', Without<Command>(pending, i), i, true, start)
  {
    WaitingAttempt(was, s, before, from, labels, now, a, b, ids, ids', pending, i, progress, start, true);
    ExecutesKeepsTxns(s, After(a), After(b), pending[i], labels, ids');
    DoneGrows(before, now, i);
    hide AccessesFor, Attempts, Accounted, After, PassOrder, Passed, Executes, NamesGrown, Without, StrictlySorted,
      SameTxns;
    AccountedGrown(was, pending, now, labels, s.active, ids, ids', s.trace, After(a).trace);
    var e := ExecutedEvent(After(a), After(b), pending[i], labels, ids');
    next := ExecuteOne(was, pending, now, labels, s.active, ids', s.trace, After(a).trace, i, e);
    PassOrderExecute(before, now, i);
  }

  lemma WaitingAttempt(was: seq<Command>, s: Sys, before: Tally, from: nat, labels: Labels,
                       now: Tally, a: seq<Action>, b: seq<Action>, ids: Names, ids': Names,
                       pending: seq<Command>, i: nat, progress: bool, start: nat, ok: bool)
    requires PassState(was, s, before, from, labels, now, a, ids, pending, i, progress, start) && i < |pending|
    requires NamesGrown(ids, ids') && Attempts(a, b, pending[i], labels, ids', ok)
    ensures AccessesFor(b, start, was, labels, ids')
  {
    hide AccessesFor, Attempts, After, PassOrder, Passed, NamesGrown, Matches, StrictlySorted, Live;
    OneMoreAttempt(a, b, start, was, labels, ids, ids', now.kept[i], ok);
  }

  lemma ExecutesKeepsTxns(s: Sys, s1: Sys, s2: Sys, cmd: Command, labels: Labels, ids: Names)
    requires SameTxns(s, s1) && Executes(s1, s2, cmd, labels, ids)
    ensures SameTxns(s, s2)
  {
  }

  lemma DoneGrows(before: Tally, now: Tally, i: nat)
    requires PassOrder(before, now, i)
    ensures |before.done| <= |now.done|
  {
  }

  lemma PassWaits(was: seq<Command>, s: Sys, before: Tally, from: nat, labels: Labels,
                  now: Tally, a: seq<Action>, b: seq<Action>, ids: Names, ids': Names,
                  pending: seq<Command>, i: nat, progress: bool, start: nat)
    requires PassState(was, s, before, from, labels, now, a, ids, pending, i, progress, start) && i < |pending|
    requires IsRun(b) && NamesGrown(ids, ids') && Live(labels, After(a).active, pending[i])
    requires MustWait(After(a), After(b), pending[i], labels, ids') && Attempts(a, b, pending[i], labels, ids', false)
    ensures PassState(was, s, before, from, labels, now, b, ids', pending, i + 1, progress, start)
  {
    WaitingAttempt(was, s, before, from, labels, now, a, b, ids, ids', pending, i, progress, start, false);
    AttemptExtends(a, b, pending[i], labels, ids', false);
    hide AccessesFor, Attempts, Accounted, After, IsRun, PassOrder, Passed, NamesGrown, Live, Extends, StillBlocked,
      Segments;
    AccountedGrown(was, pending, now, labels, s.active, ids, ids', s.trace, After(a).trace);
    PassOrderNext(before, now, i);
    if !progress {
      PassedOneMore(a, b, from, labels, ids, ids', pending, i);
    }
  }

  lemma PassEnds(was: seq<Command>, s: Sys, before: Tally, from: nat, labels: Labels,
                 now: Tally, run: seq<Action>, ids: Names, pending: seq<Command>, progress: bool, start: nat)
    requires PassState(was, s, before, from, labels, now, run, ids, pending, |pending|, progress, start)
    ensures AccessesFor(run, start, was, labels, ids)
    ensures Accounted(was, pending, now, labels, s.active, ids, s.trace, After(run).trace)
    ensures SameTxns(s, After(run)) && PassOrder(before, now, |pending|)
    ensures progress <==> |now.done| > |before.done|
    ensures !progress ==> Passed(run, from, labels, ids, pending, |pending|)
  {
  }
}
