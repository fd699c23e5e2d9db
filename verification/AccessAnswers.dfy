/** Which reads and writes execute: the answer of an access from the locks of the other transactions, by resource
    and by name. */
module AccessAnswers {
  import opened Commands
  import opened Engine
  import opened EngineLocks
  import opened EngineSafety
  import opened Ids
  import opened LockAnswers
  import opened LockModes
  import opened LockTable
  import opened LockSafety
  import opened LockHierarchy
  import opened ResourceNames
  import opened Wrappers

  // ---------------------------------------------------------------- by resource

  lemma ServedAccess(s: Table, t: TxnId, r: ResId, w: Option<int>, steps: seq<Step>, ok: bool)
    requires Inv(s) && Acyclic(s.parent) && t !in s.completed
    requires Serves(s, t, Plan(s.parent, r, ModeOf(w)), steps, ok)
    ensures w.None? ==>
              (ok <==> !OthersHold(s, t, r, {EXCLUSIVE, INTENTION_EXCLUSIVE}) && !OthersHoldAbove(s, t, r, {EXCLUSIVE}))
    ensures w.Some? ==>
              (ok <==> && (forall l :: l in LocksOn(s, r) ==> l.txn == t)
                       && !OthersHoldAbove(s, t, r, {EXCLUSIVE, SHARED}))
  {
    AnswerByMode(s, t, r, ModeOf(w), steps, ok);
    hide Inv, Acyclic, Serves, Plan, OthersHold, OthersHoldAbove;
  }

  /** In every reachable state: a READ executes exactly when no other transaction holds X or IX on the resource or X
      on an ancestor, a WRITE exactly when no other transaction holds anything on the resource or S or X on an
      ancestor. */
  lemma AccessAnswer(actions: seq<Action>, t: TxnId, r: ResId, w: Option<int>, steps: seq<Step>, ok: bool)
    requires IsRun(actions) && Allowed(After(actions), Access(t, r, w, steps, ok))
    ensures var s := After(actions).locks;
            && (w.None? ==> (ok <==> && !OthersHold(s, t, r, {EXCLUSIVE, INTENTION_EXCLUSIVE})
                                     && !OthersHoldAbove(s, t, r, {EXCLUSIVE})))
            && (w.Some? ==> (ok <==> && (forall l :: l in LocksOn(s, r) ==> l.txn == t)
                                     && !OthersHoldAbove(s, t, r, {EXCLUSIVE, SHARED})))
  {
    OkParts(actions);
    hide After, IsRun, Inv, Acyclic, Serves, Plan, Within, OthersHold, OthersHoldAbove;
    ServedAccess(After(actions).locks, t, r, w, steps, ok);
  }

  /** Nobody at all holds one of the modes on `a`. */
  ghost predicate NobodyHolds(s: Table, a: ResId, modes: set<LockType>) {
    forall l :: l in LocksOn(s, a) ==> l.mode !in modes
  }

  ghost predicate FreeToRead(s: Table, r: ResId) {
    && NobodyHolds(s, r, {EXCLUSIVE, INTENTION_EXCLUSIVE})
    && (forall a :: Above(s.parent, a, r) && a != r ==> NobodyHolds(s, a, {EXCLUSIVE}))
  }

  lemma FreeHasNoOthers(s: Table, t: TxnId, r: ResId)
    requires FreeToRead(s, r)
    ensures !OthersHold(s, t, r, {EXCLUSIVE, INTENTION_EXCLUSIVE}) && !OthersHoldAbove(s, t, r, {EXCLUSIVE})
  {
    hide Above;
  }

  lemma LeavesShared(was: multiset<Lock>, now: multiset<Lock>, t: TxnId, asked: LockType, modes: set<LockType>)
    requires Leaves(was, now, t, asked) && asked !in modes && forall l :: l in was ==> l.mode !in modes
    ensures forall l :: l in now ==> l.mode !in modes
  {
  }

  /** A READ takes no exclusive mode anywhere. */
  lemma ReadLeavesFree(s: Table, t: TxnId, r: ResId, steps: seq<Step>)
    requires Inv(s) && Acyclic(s.parent) && FreeToRead(s, r) && Run(s, steps).parent == s.parent
    requires Serves(s, t, Plan(s.parent, r, ModeOf(None)), steps, true)
    ensures FreeToRead(Run(s, steps), r)
  {
    hide Above, Serves, Plan, Run, Leaves, LocksOn, Inv, Acyclic;
    var s' := Run(s, steps);
    GrantedCallLeaves(s, t, r, SHARED, steps, r);
    LeavesShared(LocksOn(s, r), LocksOn(s', r), t, SHARED, {EXCLUSIVE, INTENTION_EXCLUSIVE});
    forall a | Above(s.parent, a, r) && a != r ensures NobodyHolds(s', a, {EXCLUSIVE}) {
      GrantedCallLeaves(s, t, r, SHARED, steps, a);
      LeavesShared(LocksOn(s, a), LocksOn(s', a), t, INTENTION_SHARED, {EXCLUSIVE});
    }
  }

  /** Readers share: while nobody holds X or IX on a resource or X above it, the READs of two transactions, one
      after the other, both execute. */
  lemma ReadersShare(actions: seq<Action>, r: ResId, t: TxnId, steps: seq<Step>, ok: bool,
                     u: TxnId, steps': seq<Step>, ok': bool)
    requires var a, b := Access(t, r, None, steps, ok), Access(u, r, None, steps', ok');
             IsRun(actions + [a] + [b])
    requires FreeToRead(After(actions).locks, r)
    ensures ok && ok'
  {
    var a, b := Access(t, r, None, steps, ok), Access(u, r, None, steps', ok');
    RunAction(actions, a);
    RunAction(actions + [a], b);
    OkParts(actions);
    OkParts(actions + [a]);
    var s := After(actions);
    AccessAnswer(actions, t, r, None, steps, ok);
    FreeHasNoOthers(s.locks, t, r);
    AccessLocks(s.locks, t, r, None, steps, ok);
    hide After, IsRun, Inv, Acyclic, HierarchyOk, Within, Serves, Plan, FreeToRead, OthersHold, OthersHoldAbove, Run;
    ReadLeavesFree(s.locks, t, r, steps);
    AccessAnswer(actions + [a], u, r, None, steps', ok');
    FreeHasNoOthers(After(actions + [a]).locks, u, r);
  }

  // ---------------------------------------------------------------- by name

  /** No other transaction holds X or IX on the name or X on a name it begins with. */
  ghost predicate MayRead(locks: Table, ids: Names, t: TxnId, p: Path) {
    forall q, l :: q in ids && q <= p && l in LocksOn(locks, ids[q]) && l.txn != t ==>
                     l.mode != EXCLUSIVE && (q == p ==> l.mode != INTENTION_EXCLUSIVE)
  }

  /** No other transaction holds anything on the name or S or X on a name it begins with. */
  ghost predicate MayWrite(locks: Table, ids: Names, t: TxnId, p: Path) {
    forall q, l :: q in ids && q <= p && l in LocksOn(locks, ids[q]) && l.txn != t ==>
                     q != p && l.mode != SHARED && l.mode != EXCLUSIVE
  }

  ghost predicate MayExecute(locks: Table, ids: Names, t: TxnId, cmd: Command) {
    match cmd
    case READ(_, name) => MayRead(locks, ids, t, Segments(name))
    case WRITE(_, name, _) => MayWrite(locks, ids, t, Segments(name))
  }

  /** The ancestors of a named resource are named, by the prefixes of its path. */
  lemma {:induction false} ChainIsNamed(ids: Names, parent: Parents, next: ResId, p: Path, c: seq<ResId>)
      returns (q: Path)
    requires NamesOk(ids, parent, next) && p in ids && IsChain(parent, c) && c[0] == ids[p]
    ensures q in ids && q <= p && ids[q] == c[|c| - 1]
    decreases |c|
  {
    if |c| == 1 {
      return p;
    }
    assert NameOk(ids, parent, p);
    assert c[1] == parent[c[0]] && IsChain(parent, c[1..]);
    q := ChainIsNamed(ids, parent, next, p[..|p| - 1], c[1..]);
  }

  lemma AncestorIsNamed(ids: Names, parent: Parents, next: ResId, p: Path, a: ResId) returns (q: Path)
    requires NamesOk(ids, parent, next) && p in ids && Above(parent, a, ids[p])
    ensures q in ids && q <= p && ids[q] == a
  {
    var c :| IsChain(parent, c) && c[0] == ids[p] && c[|c| - 1] == a;
    q := ChainIsNamed(ids, parent, next, p, c);
  }

  lemma AboveByName(locks: Table, ids: Names, next: ResId, t: TxnId, p: Path, modes: set<LockType>)
    requires NamesOk(ids, locks.parent, next) && p in ids
    ensures OthersHoldAbove(locks, t, ids[p], modes) <==>
              exists q, l :: q in ids && q <= p && q != p
                             && l in LocksOn(locks, ids[q]) && l.txn != t && l.mode in modes
  {
    hide Above;
    if OthersHoldAbove(locks, t, ids[p], modes) {
      var a :| Above(locks.parent, a, ids[p]) && a != ids[p] && OthersHold(locks, t, a, modes);
      var q := AncestorIsNamed(ids, locks.parent, next, p, a);
      var l :| l in LocksOn(locks, a) && l.txn != t && l.mode in modes;
      assert q in ids && q <= p && q != p && l in LocksOn(locks, ids[q]);
    }
    forall q, l | q in ids && q <= p && q != p && l in LocksOn(locks, ids[q]) && l.txn != t && l.mode in modes
      ensures OthersHoldAbove(locks, t, ids[p], modes) {
      AboveIsPrefix(ids, locks.parent, next, q, p);
      assert OthersHold(locks, t, ids[q], modes);
    }
  }

  lemma MayByName(locks: Table, ids: Names, next: ResId, t: TxnId, p: Path)
    requires NamesOk(ids, locks.parent, next) && p in ids
    ensures MayRead(locks, ids, t, p) <==>
              && !OthersHold(locks, t, ids[p], {EXCLUSIVE, INTENTION_EXCLUSIVE})
              && !OthersHoldAbove(locks, t, ids[p], {EXCLUSIVE})
    ensures MayWrite(locks, ids, t, p) <==>
              && (forall l :: l in LocksOn(locks, ids[p]) ==> l.txn == t)
              && !OthersHoldAbove(locks, t, ids[p], {EXCLUSIVE, SHARED})
  {
    hide OthersHoldAbove, NamesOk, LocksOn;
    AboveByName(locks, ids, next, t, p, {EXCLUSIVE});
    AboveByName(locks, ids, next, t, p, {EXCLUSIVE, SHARED});
  }

  /** Names that are new are not locked. */
  ghost predicate NewNamesFree(locks: Table, ids: Names, before: Names) {
    forall p :: p in ids && p !in before ==> LocksOn(locks, ids[p]) == multiset{}
  }

  /** New names change nobody's answer. */
  lemma MayStays(locks: Table, ids: Names, locks': Table, ids': Names, t: TxnId, cmd: Command)
    requires locks'.locks == locks.locks && NamesGrown(ids, ids') && NewNamesFree(locks', ids', ids)
    ensures MayExecute(locks', ids', t, cmd) <==> MayExecute(locks, ids, t, cmd)
  {
    hide Segments;
    assert forall r :: LocksOn(locks', r) == LocksOn(locks, r);
  }

  lemma UnnamedMay(locks: Table, ids: Names, next: ResId, t: TxnId, cmd: Command)
    requires NamesOk(ids, locks.parent, next) && Segments(cmd.resourceName) == []
    ensures MayExecute(locks, ids, t, cmd)
  {
    hide Segments, LocksOn;
    assert [] in ids ==> NameOk(ids, locks.parent, []);
  }

  /** Whether a command executes, once the resource of its name is there. */
  lemma CommandAnswer(locks: Table, ids: Names, next: ResId, t: TxnId, cmd: Command, r: ResId, steps: seq<Step>,
                      ok: bool)
    requires NamesOk(ids, locks.parent, next) && Inv(locks) && Acyclic(locks.parent) && t !in locks.completed
    requires Resolved(locks, ids, cmd.resourceName, r)
    requires Serves(locks, t, Plan(locks.parent, r, ModeOf(WriteOf(cmd))), steps, ok)
    ensures ok <==> MayExecute(locks, ids, t, cmd)
  {
    hide Segments, Inv, Acyclic, Serves, Plan, NamesOk, MayRead, MayWrite, OthersHold, OthersHoldAbove, LocksOn,
      BlockedCall;
    var p := Segments(cmd.resourceName);
    if p != [] {
      ServedAccess(locks, t, r, WriteOf(cmd), steps, ok);
      MayByName(locks, ids, next, t, p);
    } else {
      CallIsGrantedIff(locks, t, r, ModeOf(WriteOf(cmd)), steps, ok);
      UnlockedIsFree(locks, t, r, ModeOf(WriteOf(cmd)));
      UnnamedMay(locks, ids, next, t, cmd);
    }
  }
}
