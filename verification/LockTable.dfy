/** The lock manager's state as a value, and its public operations as steps on that value.

    Locks on a resource form a multiset: the program keeps them in a set ordered by address, so one
    transaction may hold several of them, even of the same mode, and which of its own locks a scan
    meets first is arbitrary.  That choice is part of the step (`found`), so a statement about all
    legal steps is a statement about all choices. */
module LockTable {
  import opened Ids
  import opened LockModes
  import opened Wrappers

  datatype Lock = Lock(txn: TxnId, mode: LockType)
  type LockRequest = Lock

  datatype Table = Table(
    locks: map<ResId, multiset<Lock>>,
    queues: map<ResId, seq<LockRequest>>,
    held: map<TxnId, set<ResId>>,
    completed: set<TxnId>,
    parent: map<ResId, ResId>)

  const EMPTY := Table(map[], map[], map[], {}, map[])

  // ---------------------------------------------------------------- reading the table

  ghost function LocksOn(s: Table, r: ResId): multiset<Lock> {
    if r in s.locks then s.locks[r] else multiset{}
  }

  ghost function QueueOn(s: Table, r: ResId): seq<LockRequest> {
    if r in s.queues then s.queues[r] else []
  }

  ghost function HeldBy(s: Table, t: TxnId): set<ResId> {
    if t in s.held then s.held[t] else {}
  }

  ghost predicate Owns(ls: multiset<Lock>, t: TxnId) {
    exists l :: l in ls && l.txn == t
  }

  ghost predicate Holds(s: Table, t: TxnId, r: ResId) {
    Owns(LocksOn(s, r), t)
  }

  ghost predicate Queued(q: seq<LockRequest>, t: TxnId) {
    exists i :: 0 <= i < |q| && q[i].txn == t
  }

  ghost predicate Fits(ls: multiset<Lock>, m: LockType) {
    forall l :: l in ls ==> Compatible(l.mode, m)
  }

  ghost predicate FitsOthers(ls: multiset<Lock>, t: TxnId, m: LockType) {
    forall l :: l in ls && l.txn != t ==> Compatible(l.mode, m)
  }

  // ---------------------------------------------------------------- one request on one resource

  /** What a step of a transaction does to the locks and the queue of one resource. */
  datatype Change =
    | Same
    | Added(mode: LockType)
    | Swapped(was: LockType, mode: LockType)
    | Waits(mode: LockType)
    | Refilled

  datatype Answer = Answer(change: Change, granted: bool)

  ghost function Refuse(q: seq<LockRequest>, t: TxnId, m: LockType): Answer {
    Answer(if Queued(q, t) then Same else Waits(m), false)
  }

  /** The decision of one request by an uncompleted transaction.  The "upgrade" branch replaces the own
      lock that was found, whichever way the two modes compare. */
  ghost function Decide(ls: multiset<Lock>, q: seq<LockRequest>, t: TxnId, m: LockType,
                        found: Option<LockType>): Answer {
    match found
    case Some(h) =>
      if h == m || h == EXCLUSIVE then Answer(Same, true)
      else if FitsOthers(ls, t, m) then Answer(Swapped(h, m), true)
      else Refuse(q, t, m)
    case None =>
      if Fits(ls, m) then Answer(Added(m), true) else Refuse(q, t, m)
  }

  ghost function Grant(s: Table, t: TxnId, r: ResId, m: LockType): Table {
    s.(locks := s.locks[r := LocksOn(s, r) + multiset{Lock(t, m)}],
       held := s.held[t := HeldBy(s, t) + {r}])
  }

  ghost function Replace(s: Table, t: TxnId, r: ResId, h: LockType, m: LockType): Table {
    s.(locks := s.locks[r := LocksOn(s, r) - multiset{Lock(t, h)} + multiset{Lock(t, m)}],
       held := s.held[t := HeldBy(s, t) + {r}])
  }

  ghost function Enqueue(s: Table, t: TxnId, r: ResId, m: LockType): Table {
    s.(queues := s.queues[r := QueueOn(s, r) + [Lock(t, m)]])
  }

  ghost function Update(s: Table, t: TxnId, r: ResId, c: Change): (s': Table)
    ensures s'.completed == s.completed && s'.parent == s.parent
  {
    match c
    case Added(m) => Grant(s, t, r, m)
    case Swapped(h, m) => Replace(s, t, r, h, m)
    case Waits(m) => Enqueue(s, t, r, m)
    case _ => s
  }

  /** A completed transaction is refused everything; for the others, see `Decide`. */
  ghost function RequestOn(s: Table, t: TxnId, r: ResId, m: LockType, found: Option<LockType>): Answer {
    if t in s.completed then Answer(Same, false)
    else Decide(LocksOn(s, r), QueueOn(s, r), t, m, found)
  }

  /** `found` is the mode of one own lock of `t` on `r`, or None when there is none. */
  ghost predicate CanFind(s: Table, t: TxnId, r: ResId, found: Option<LockType>) {
    match found
    case Some(h) => Lock(t, h) in LocksOn(s, r)
    case None => !Holds(s, t, r)
  }

  // ---------------------------------------------------------------- releasing

  ghost function ZeroModes(ls: multiset<Lock>, t: TxnId): multiset<Lock> {
    ls[Lock(t, NONE) := 0][Lock(t, SHARED) := 0][Lock(t, EXCLUSIVE) := 0]
      [Lock(t, INTENTION_SHARED) := 0][Lock(t, INTENTION_EXCLUSIVE) := 0]
  }

  lemma ZeroModesCounts(ls: multiset<Lock>, t: TxnId)
    ensures forall l :: ZeroModes(ls, t)[l] == if l.txn == t then 0 else ls[l]
  {
    forall l ensures ZeroModes(ls, t)[l] == if l.txn == t then 0 else ls[l] {
      if l.txn == t {
        match l.mode
        case NONE => assert l == Lock(t, NONE);
        case SHARED => assert l == Lock(t, SHARED);
        case EXCLUSIVE => assert l == Lock(t, EXCLUSIVE);
        case INTENTION_SHARED => assert l == Lock(t, INTENTION_SHARED);
        case INTENTION_EXCLUSIVE => assert l == Lock(t, INTENTION_EXCLUSIVE);
      }
    }
  }

  /** Remove every lock of `t`, whatever its mode. */
  ghost function Drop(ls: multiset<Lock>, t: TxnId): (kept: multiset<Lock>)
    ensures forall l :: kept[l] == if l.txn == t then 0 else ls[l]
  {
    ZeroModesCounts(ls, t);
    var kept: multiset<Lock> :| forall l: Lock :: kept[l] == if l.txn == t then 0 else ls[l];
    kept
  }

  /** How many requests the wait-queue loop grants, starting from the locks `ls`. */
  ghost function Admit(ls: multiset<Lock>, q: seq<LockRequest>): (k: nat)
    ensures k <= |q|
    decreases |q|
  {
    if q != [] && Fits(ls, q[0].mode) then 1 + Admit(ls + multiset{q[0]}, q[1..]) else 0
  }

  /** The requests of `q` that are granted when the locks of `t` are dropped from `ls`. */
  ghost function AdmittedFrom(ls: multiset<Lock>, q: seq<LockRequest>, t: TxnId): seq<LockRequest> {
    q[..Admit(Drop(ls, t), q)]
  }

  ghost function RefilledLocks(ls: multiset<Lock>, q: seq<LockRequest>, t: TxnId): multiset<Lock> {
    Drop(ls, t) + multiset(AdmittedFrom(ls, q, t))
  }

  ghost function RefilledQueue(ls: multiset<Lock>, q: seq<LockRequest>, t: TxnId): seq<LockRequest> {
    q[Admit(Drop(ls, t), q)..]
  }

  ghost function Admitted(s: Table, t: TxnId, r: ResId): seq<LockRequest> {
    AdmittedFrom(LocksOn(s, r), QueueOn(s, r), t)
  }

  ghost function LocksAfterRelease(s: Table, t: TxnId, r: ResId): multiset<Lock> {
    RefilledLocks(LocksOn(s, r), QueueOn(s, r), t)
  }

  ghost function QueueAfterRelease(s: Table, t: TxnId, r: ResId): seq<LockRequest> {
    RefilledQueue(LocksOn(s, r), QueueOn(s, r), t)
  }

  /** The resources of `rs` whose release of `t` hands a lock to `x`. */
  ghost function HandedTo(s: Table, t: TxnId, rs: set<ResId>, x: TxnId): set<ResId> {
    set r | r in rs && Queued(Admitted(s, t, r), x)
  }

  ghost function HeldAfterRelease(s: Table, t: TxnId, rs: set<ResId>, x: TxnId): set<ResId> {
    (if x == t then HeldBy(s, x) - rs else HeldBy(s, x)) + HandedTo(s, t, rs, x)
  }

  ghost function Receivers(s: Table, t: TxnId, rs: set<ResId>): set<TxnId> {
    set r, i | r in rs && 0 <= i < |Admitted(s, t, r)| :: Admitted(s, t, r)[i].txn
  }

  /** All resources of `rs` released by `t` at once, resource by resource: drop the locks of `t`, then
      grant the admitted prefix of the queue.  Entries that become empty are erased. */
  ghost function ReleaseAll(s: Table, t: TxnId, rs: set<ResId>): (s': Table)
    ensures s'.completed == s.completed && s'.parent == s.parent
  {
    s.(locks := map r | r in s.locks &&
                        (r in rs ==> LocksAfterRelease(s, t, r) != multiset{}) ::
                        if r in rs then LocksAfterRelease(s, t, r) else s.locks[r],
       queues := map r | r in s.queues &&
                         (r in rs ==> QueueAfterRelease(s, t, r) != []) ::
                         if r in rs then QueueAfterRelease(s, t, r) else s.queues[r],
       held := map x | x in s.held.Keys + Receivers(s, t, rs) && HeldAfterRelease(s, t, rs, x) != {} ::
                       HeldAfterRelease(s, t, rs, x))
  }

  ghost predicate MayRelease(s: Table, t: TxnId, r: ResId) {
    t in s.completed && Holds(s, t, r)
  }

  ghost function Forget(s: Table, t: TxnId): Table {
    s.(held := s.held - {t})
  }

  // ---------------------------------------------------------------- steps and runs

  datatype Step =
    | SetParent(child: ResId, up: ResId)
    | Request(txn: TxnId, res: ResId, mode: LockType, found: Option<LockType>)
    | Release(txn: TxnId, res: ResId)
    | Complete(txn: TxnId)

  ghost predicate Enabled(s: Table, step: Step) {
    step.Request? && step.txn !in s.completed ==> CanFind(s, step.txn, step.res, step.found)
  }

  ghost predicate Granted(s: Table, step: Step) {
    step.Request? && RequestOn(s, step.txn, step.res, step.mode, step.found).granted
  }

  ghost function Apply(s: Table, step: Step): Table {
    match step
    case SetParent(c, p) => s.(parent := s.parent[c := p])
    case Request(t, r, m, found) => Update(s, t, r, RequestOn(s, t, r, m, found).change)
    case Release(t, r) => if MayRelease(s, t, r) then ReleaseAll(s, t, {r}) else s
    case Complete(t) =>
      var marked := s.(completed := s.completed + {t});
      if t in s.held then Forget(ReleaseAll(marked, t, s.held[t]), t) else marked
  }

  /** The state a run reaches, the last step first. */
  ghost function Run(s: Table, steps: seq<Step>): Table {
    if steps == [] then s else Apply(Run(s, steps[..|steps| - 1]), steps[|steps| - 1])
  }

  ghost predicate Legal(s: Table, steps: seq<Step>) {
    steps == [] ||
    (var n := |steps| - 1; Legal(s, steps[..n]) && Enabled(Run(s, steps[..n]), steps[n]))
  }

  lemma RunSnoc(s: Table, steps: seq<Step>, step: Step)
    ensures Run(s, steps + [step]) == Apply(Run(s, steps), step)
    ensures Legal(s, steps + [step]) <==> Legal(s, steps) && Enabled(Run(s, steps), step)
  {
    assert (steps + [step])[..|steps|] == steps;
  }

  // ---------------------------------------------------------------- the admitted prefix

  ghost predicate FitsAfter(ls: multiset<Lock>, q: seq<LockRequest>, i: nat)
    requires i < |q|
  {
    Fits(ls + multiset(q[..i]), q[i].mode)
  }

  /** Partner of the queue loop: the longest FIFO prefix whose members are compatible, one after the
      other, with the locks then held. */
  ghost predicate IsMaximalPrefix(ls: multiset<Lock>, q: seq<LockRequest>, k: nat) {
    && k <= |q|
    && (forall i :: 0 <= i < k ==> FitsAfter(ls, q, i))
    && (k < |q| ==> !FitsAfter(ls, q, k))
  }

  lemma ShiftPrefix(ls: multiset<Lock>, q: seq<LockRequest>, i: nat)
    requires 0 < i < |q|
    ensures FitsAfter(ls, q, i) <==> FitsAfter(ls + multiset{q[0]}, q[1..], i - 1)
  {
    assert q[..i] == [q[0]] + q[1..][..i - 1];
    assert ls + multiset(q[..i]) == ls + multiset{q[0]} + multiset(q[1..][..i - 1]);
  }

  lemma {:induction false} AdmitIsMaximalPrefix(ls: multiset<Lock>, q: seq<LockRequest>)
    ensures IsMaximalPrefix(ls, q, Admit(ls, q))
    decreases |q|
  {
    if q != [] {
      var k := Admit(ls, q);
      assert ls + multiset(q[..0]) == ls;
      assert FitsAfter(ls, q, 0) <==> Fits(ls, q[0].mode);
      if k > 0 {
        AdmitIsMaximalPrefix(ls + multiset{q[0]}, q[1..]);
        forall i | 0 < i < k ensures FitsAfter(ls, q, i) {
          ShiftPrefix(ls, q, i);
        }
        if k < |q| {
          ShiftPrefix(ls, q, k);
        }
      }
    }
  }

  /** There is only one such prefix, so the characterisation pins the loop down. */
  lemma MaximalPrefixUnique(ls: multiset<Lock>, q: seq<LockRequest>, k: nat)
    requires IsMaximalPrefix(ls, q, k)
    ensures k == Admit(ls, q)
  {
    AdmitIsMaximalPrefix(ls, q);
  }
}
