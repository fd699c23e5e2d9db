/** Executed events, conflicts between them, and serial replays. */
module Histories {
  import opened Ids
  import opened Wrappers

  type Store = map<ResId, int>

  /** What the engine executed: reads with the value printed, writes, and completions. */
  datatype Event =
    | Read(txn: TxnId, res: ResId, value: int)
    | Write(txn: TxnId, res: ResId, value: int)
    | Done(txn: TxnId, committed: bool)

  ghost predicate Conflict(a: Event, b: Event) {
    !a.Done? && !b.Done? && a.res == b.res && (a.Write? || b.Write?)
  }

  // ---------------------------------------------------------------- replaying

  /** One event on a store; None when a read does not find the value it reported. */
  ghost function Exec(m: Option<Store>, e: Event): Option<Store> {
    if m.None? || e.Done? then m
    else if e.res !in m.value then None
    else match e
         case Read(_, r, v) => if m.value[r] == v then m else None
         case Write(_, r, v) => Some(m.value[r := v])
  }

  ghost function Replay(m: Option<Store>, es: seq<Event>): Option<Store> {
    if es == [] then m else Exec(Replay(m, es[..|es| - 1]), es[|es| - 1])
  }

  lemma ReplaySnoc(m: Option<Store>, es: seq<Event>, e: Event)
    ensures Replay(m, es + [e]) == Exec(Replay(m, es), e)
  {
    assert (es + [e])[..|es|] == es;
  }

  lemma {:induction false} ReplayConcat(m: Option<Store>, a: seq<Event>, b: seq<Event>)
    ensures Replay(m, a + b) == Replay(Replay(m, a), b)
    decreases |b|
  {
    if b == [] {
      assert a + b == a;
    } else {
      var n := |b| - 1;
      assert a + b == (a + b[..n]) + [b[n]] && b == b[..n] + [b[n]];
      ReplaySnoc(m, a + b[..n], b[n]);
      ReplayConcat(m, a, b[..n]);
      ReplaySnoc(Replay(m, a), b[..n], b[n]);
    }
  }

  /** The last value written to `r`, or `v` when nobody has written it. */
  ghost function LastWritten(es: seq<Event>, r: ResId, v: int): int {
    if es == [] then v
    else
      var e := es[|es| - 1];
      if e.Write? && e.res == r then e.value else LastWritten(es[..|es| - 1], r, v)
  }

  lemma {:induction false} UnwrittenKeeps(es: seq<Event>, r: ResId, v: int)
    requires forall i :: 0 <= i < |es| ==> !(es[i].Write? && es[i].res == r)
    ensures LastWritten(es, r, v) == v
  {
    if es != [] {
      UnwrittenKeeps(es[..|es| - 1], r, v);
    }
  }

  /** A history that replays leaves in every place what was written there last. */
  lemma {:induction false} StoreIsLastWritten(m: Store, es: seq<Event>, r: ResId)
    requires r in m && Replay(Some(m), es).Some?
    ensures r in Replay(Some(m), es).value && Replay(Some(m), es).value[r] == LastWritten(es, r, m[r])
  {
    if es != [] {
      StoreIsLastWritten(m, es[..|es| - 1], r);
    }
  }

  /** And every read in it reports what was written there last. */
  lemma {:induction false} ReadsLastWritten(m: Store, es: seq<Event>, i: nat)
    requires Replay(Some(m), es).Some? && i < |es| && es[i].Read?
    requires es[i].res in m
    ensures es[i].value == LastWritten(es[..i], es[i].res, m[es[i].res])
    decreases |es|
  {
    var n := |es| - 1;
    if i < n {
      ReadsLastWritten(m, es[..n], i);
      assert es[..n][..i] == es[..i];
    } else {
      StoreIsLastWritten(m, es[..n], es[n].res);
    }
  }

  lemma ExecCommutes(m: Option<Store>, a: Event, b: Event)
    requires !Conflict(a, b)
    ensures Exec(Exec(m, a), b) == Exec(Exec(m, b), a)
  {
    if m.Some? && a.Write? && b.Write? && a.res in m.value && b.res in m.value {
      assert m.value[a.res := a.value][b.res := b.value] == m.value[b.res := b.value][a.res := a.value];
    }
  }

  lemma {:induction false} MoveToEnd(m: Option<Store>, e: Event, es: seq<Event>)
    requires forall x :: x in es ==> !Conflict(e, x)
    ensures Replay(Exec(m, e), es) == Exec(Replay(m, es), e)
    decreases |es|
  {
    if es != [] {
      var n := |es| - 1;
      assert es[n] in es;
      MoveToEnd(m, e, es[..n]);
      ExecCommutes(Replay(m, es[..n]), e, es[n]);
    }
  }

  // ---------------------------------------------------------------- serial histories

  /** The operations of one transaction, in the order it executed them. */
  ghost function Project(es: seq<Event>, t: TxnId): seq<Event> {
    if es == [] then []
    else
      var e := es[|es| - 1];
      Project(es[..|es| - 1], t) + (if !e.Done? && e.txn == t then [e] else [])
  }

  /** The transactions one after the other. */
  ghost function Serial(es: seq<Event>, order: seq<TxnId>): seq<Event> {
    if order == [] then [] else Serial(es, order[..|order| - 1]) + Project(es, order[|order| - 1])
  }

  ghost predicate Distinct(order: seq<TxnId>) {
    forall i, j :: 0 <= i < j < |order| ==> order[i] != order[j]
  }

  /** `a` comes before `b`: some prefix has the one and not the other. */
  ghost predicate Precedes(order: seq<TxnId>, a: TxnId, b: TxnId) {
    exists c :: 0 <= c <= |order| && a in order[..c] && b !in order[..c]
  }

  ghost predicate Ordered(es: seq<Event>, order: seq<TxnId>) {
    && Distinct(order)
    && (forall i :: 0 <= i < |es| && !es[i].Done? ==> es[i].txn in order)
    && (forall i, j :: 0 <= i < j < |es| && Conflict(es[i], es[j]) && es[i].txn != es[j].txn
          ==> Precedes(order, es[i].txn, es[j].txn))
  }

  lemma SerialSnoc(es: seq<Event>, order: seq<TxnId>, t: TxnId)
    ensures Serial(es, order + [t]) == Serial(es, order) + Project(es, t)
  {
    hide Project;
    assert (order + [t])[..|order|] == order;
  }

  lemma NothingSerial(es: seq<Event>)
    ensures Serial(es, []) == []
  {
  }

  lemma Associative<T>(a: seq<T>, b: seq<T>, c: seq<T>)
    ensures (a + b) + c == a + (b + c) && a + [] == a
  {
  }

  lemma {:induction false} SerialConcat(es: seq<Event>, a: seq<TxnId>, b: seq<TxnId>)
    ensures Serial(es, a + b) == Serial(es, a) + Serial(es, b)
    decreases |b|
  {
    hide Serial, Project;
    NothingSerial(es);
    Associative(a, [], []);
    if b == [] {
      Associative(Serial(es, a), [], []);
    } else {
      var n := |b| - 1;
      var front, last := b[..n], b[n];
      assert b == front + [last];
      SerialConcat(es, a, front);
      Associative(a, front, [last]);
      SerialSnoc(es, a + front, last);
      SerialSnoc(es, front, last);
      Associative(Serial(es, a), Serial(es, front), Project(es, last));
    }
  }

  lemma {:induction false} ProjectIsFrom(es: seq<Event>, t: TxnId, e: Event)
    requires e in Project(es, t)
    ensures e in es && !e.Done? && e.txn == t
  {
    var n := |es| - 1;
    assert es == es[..n] + [es[n]];
    if e in Project(es[..n], t) {
      ProjectIsFrom(es[..n], t, e);
    }
  }

  lemma {:induction false} SerialIsFrom(es: seq<Event>, order: seq<TxnId>, e: Event)
    requires e in Serial(es, order)
    ensures e in es && !e.Done? && e.txn in order
  {
    var n := |order| - 1;
    assert order == order[..n] + [order[n]];
    if e in Serial(es, order[..n]) {
      SerialIsFrom(es, order[..n], e);
    } else {
      ProjectIsFrom(es, order[n], e);
    }
  }

  /** An event of a transaction outside `order` does not show in the serial history. */
  lemma {:induction false} SerialWithout(es: seq<Event>, e: Event, order: seq<TxnId>)
    requires e.Done? || e.txn !in order
    ensures Serial(es + [e], order) == Serial(es, order)
    decreases |order|
  {
    if order != [] {
      var n := |order| - 1;
      SerialWithout(es, e, order[..n]);
      assert (es + [e])[..|es|] == es;
      assert order[n] in order;
    }
  }

  lemma ProjectSnoc(es: seq<Event>, e: Event)
    requires !e.Done?
    ensures Project(es + [e], e.txn) == Project(es, e.txn) + [e]
  {
    assert (es + [e])[..|es|] == es;
  }

  /** Where the last event of `es + [e]` goes: at the end of its transaction's block. */
  lemma SerialInsert(es: seq<Event>, e: Event, order: seq<TxnId>, p: nat)
    requires !e.Done? && Distinct(order) && p < |order| && order[p] == e.txn
    ensures Serial(es + [e], order) == Serial(es, order[..p + 1]) + [e] + Serial(es, order[p + 1..])
    ensures Serial(es, order) == Serial(es, order[..p + 1]) + Serial(es, order[p + 1..])
  {
    hide Serial, Project;
    var up, down := order[..p + 1], order[p + 1..];
    assert order == up + down && up == order[..p] + [e.txn];
    SerialConcat(es, up, down);
    SerialConcat(es + [e], up, down);
    SerialSnoc(es, order[..p], e.txn);
    SerialSnoc(es + [e], order[..p], e.txn);
    SerialWithout(es, e, order[..p]);
    SerialWithout(es, e, down);
    ProjectSnoc(es, e);
    assert Serial(es, order[..p]) + (Project(es, e.txn) + [e]) == Serial(es, up) + [e];
  }

  lemma OrderedPrefix(es: seq<Event>, e: Event, order: seq<TxnId>)
    requires Ordered(es + [e], order)
    ensures Ordered(es, order)
  {
    var all := es + [e];
    assert forall i :: 0 <= i < |es| ==> all[i] == es[i];
  }

  lemma LaterDoesNotPrecede(order: seq<TxnId>, p: nat, x: TxnId)
    requires Distinct(order) && p < |order| && x in order[p + 1..]
    ensures !Precedes(order, x, order[p])
  {
    forall c | 0 <= c <= |order| && x in order[..c] ensures order[p] in order[..c] {
      var k :| 0 <= k < c && order[k] == x;
      assert p < c ==> order[..c][p] == order[p];
    }
  }

  /** No event that ends up after the last one in the serial history conflicts with it. */
  lemma LaterBlocksDoNotConflict(es: seq<Event>, e: Event, order: seq<TxnId>, p: nat, x: Event)
    requires !e.Done? && Ordered(es + [e], order) && p < |order| && order[p] == e.txn
    requires x in Serial(es, order[p + 1..])
    ensures !Conflict(e, x)
  {
    SerialIsFrom(es, order[p + 1..], x);
    LaterDoesNotPrecede(order, p, x.txn);
    var all := es + [e];
    var i :| 0 <= i < |es| && es[i] == x;
    assert all[i] == x && all[|es|] == e;
  }

  /** The serializability theorem: when every conflict agrees with an order of the transactions, running
      them one after the other in that order reads the same values and leaves the same store. */
  lemma {:induction false} SerialEquivalent(m: Option<Store>, es: seq<Event>, order: seq<TxnId>)
    requires Ordered(es, order)
    ensures Replay(m, Serial(es, order)) == Replay(m, es)
    decreases |es|
  {
    if es == [] {
      NothingToReplay(order);
    } else {
      var n := |es| - 1;
      var before, e := es[..n], es[n];
      assert es == before + [e];
      OrderedPrefix(before, e, order);
      SerialEquivalent(m, before, order);
      if e.Done? {
        SerialWithout(before, e, order);
      } else {
        var p :| 0 <= p < |order| && order[p] == e.txn;
        var up, down := Serial(before, order[..p + 1]), Serial(before, order[p + 1..]);
        SerialInsert(before, e, order, p);
        forall x | x in down ensures !Conflict(e, x) {
          LaterBlocksDoNotConflict(before, e, order, p, x);
        }
        MoveToEnd(Replay(m, up), e, down);
        ReplayConcat(m, up + [e], down);
        ReplaySnoc(m, up, e);
        ReplayConcat(m, up, down);
      }
    }
  }

  lemma {:induction false} NothingToReplay(order: seq<TxnId>)
    ensures Serial([], order) == []
    decreases |order|
  {
    if order != [] {
      NothingToReplay(order[..|order| - 1]);
    }
  }

  // ---------------------------------------------------------------- the conflict graph

  ghost predicate ConflictEdge(es: seq<Event>, a: TxnId, b: TxnId) {
    a != b && exists i, j :: 0 <= i < j < |es| && Conflict(es[i], es[j]) && es[i].txn == a && es[j].txn == b
  }

  ghost predicate ConflictPath(es: seq<Event>, p: seq<TxnId>) {
    forall i :: 0 <= i < |p| - 1 ==> ConflictEdge(es, p[i], p[i + 1])
  }

  lemma PrefixMonotone(order: seq<TxnId>, j: int, i: int, x: TxnId)
    ensures 0 <= j <= i <= |order| && x in order[..j] ==> x in order[..i]
  {
    if 0 <= j <= i <= |order| {
      assert order[..j] == order[..i][..j];
    }
  }

  lemma PrecedesTransitive(order: seq<TxnId>, a: TxnId, b: TxnId, c: TxnId)
    requires Precedes(order, a, b) && Precedes(order, b, c)
    ensures Precedes(order, a, c)
  {
    var i :| 0 <= i <= |order| && a in order[..i] && b !in order[..i];
    var j :| 0 <= j <= |order| && b in order[..j] && c !in order[..j];
    PrefixMonotone(order, j, i, b);
    assert order[..i] == order[..j][..i];
    assert a in order[..j];
  }

  lemma {:induction false} PathPrecedes(es: seq<Event>, order: seq<TxnId>, p: seq<TxnId>)
    requires Ordered(es, order) && ConflictPath(es, p) && |p| >= 2
    ensures Precedes(order, p[0], p[|p| - 1])
    decreases |p|
  {
    var n := |p| - 1;
    assert ConflictEdge(es, p[n - 1], p[n]);
    if n > 1 {
      forall i | 0 <= i < n - 1 ensures ConflictEdge(es, p[..n][i], p[..n][i + 1]) {
        assert ConflictEdge(es, p[i], p[i + 1]);
      }
      PathPrecedes(es, order, p[..n]);
      PrecedesTransitive(order, p[0], p[n - 1], p[n]);
    }
  }

  lemma ConflictGraphAcyclic(es: seq<Event>, order: seq<TxnId>, p: seq<TxnId>)
    requires Ordered(es, order) && ConflictPath(es, p) && |p| >= 2
    ensures p[0] != p[|p| - 1]
  {
    PathPrecedes(es, order, p);
  }

  // ---------------------------------------------------------------- completion order

  ghost predicate IsDone(e: Event, t: TxnId) {
    e.Done? && e.txn == t
  }

  /** Transactions in the order they completed. */
  ghost function Completions(es: seq<Event>): seq<TxnId> {
    if es == [] then []
    else
      var e := es[|es| - 1];
      Completions(es[..|es| - 1]) + (if e.Done? then [e.txn] else [])
  }

  /** Between two conflicting operations of different transactions, the first transaction completes. */
  ghost predicate Separated(es: seq<Event>, i: int, j: int) {
    0 <= i < j < |es| && exists k :: i < k < j && IsDone(es[k], es[i].txn)
  }

  /** A transaction completes once at most and does nothing afterwards. */
  ghost predicate QuietAfterDone(es: seq<Event>) {
    forall k, j :: 0 <= k < j < |es| && es[k].Done? ==> es[j].txn != es[k].txn
  }

  lemma {:induction false} CompletionsExact(es: seq<Event>, t: TxnId)
    ensures t in Completions(es) <==> exists k :: 0 <= k < |es| && IsDone(es[k], t)
  {
    if es != [] {
      var n := |es| - 1;
      CompletionsExact(es[..n], t);
      assert IsDone(es[n], t) ==> t in Completions(es);
      assert forall k :: 0 <= k < n ==> es[..n][k] == es[k];
      if t in Completions(es[..n]) {
        var k :| 0 <= k < n && IsDone(es[..n][k], t);
        assert IsDone(es[k], t);
      }
      if exists k :: 0 <= k < n && IsDone(es[k], t) {
        var k :| 0 <= k < n && IsDone(es[k], t);
        assert IsDone(es[..n][k], t);
      }
    }
  }

  lemma {:induction false} CompletionsPrefix(es: seq<Event>, k: nat)
    requires k <= |es|
    ensures Completions(es[..k]) <= Completions(es)
    decreases |es| - k
  {
    if k == |es| {
      assert es[..k] == es;
    } else {
      assert es[..k + 1][..k] == es[..k];
      CompletionsPrefix(es, k + 1);
    }
  }

  lemma {:induction false} CompletionsDistinct(es: seq<Event>)
    requires QuietAfterDone(es)
    ensures Distinct(Completions(es))
    decreases |es|
  {
    if es != [] {
      var n := |es| - 1;
      assert forall k :: 0 <= k < n ==> es[..n][k] == es[k];
      CompletionsDistinct(es[..n]);
      if es[n].Done? {
        CompletionsExact(es[..n], es[n].txn);
      }
    }
  }

  ghost predicate Strict(es: seq<Event>) {
    forall i, j :: 0 <= i < j < |es| && Conflict(es[i], es[j]) && es[i].txn != es[j].txn ==> Separated(es, i, j)
  }

  lemma SeparatedPrecedes(es: seq<Event>, order: seq<TxnId>, i: int, j: int)
    requires QuietAfterDone(es) && Separated(es, i, j) && !es[j].Done?
    requires Completions(es) <= order
    ensures Precedes(order, es[i].txn, es[j].txn)
  {
    var a, b := es[i].txn, es[j].txn;
    var k :| i < k < j && IsDone(es[k], a);
    var done := Completions(es[..k + 1]);
    CompletionsPrefix(es, k + 1);
    CompletionsExact(es[..k + 1], a);
    CompletionsExact(es[..k + 1], b);
    assert es[..k + 1][k] == es[k];
    assert done == order[..|done|];
  }

  /** Completion order, then the active transactions in any order, serializes a strict history. */
  lemma StrictIsOrdered(es: seq<Event>, rest: seq<TxnId>)
    requires QuietAfterDone(es) && Strict(es)
    requires Distinct(rest) && forall t :: t in rest ==> t !in Completions(es)
    requires forall i :: 0 <= i < |es| && !es[i].Done? ==> es[i].txn in Completions(es) || es[i].txn in rest
    ensures Ordered(es, Completions(es) + rest)
  {
    var order := Completions(es) + rest;
    CompletionsDistinct(es);
    assert Distinct(order) by {
      DistinctConcat(Completions(es), rest);
    }
    hide Completions, Precedes, Separated, QuietAfterDone, Distinct;
    forall i, j | 0 <= i < j < |es| && Conflict(es[i], es[j]) && es[i].txn != es[j].txn
      ensures Precedes(order, es[i].txn, es[j].txn) {
      SeparatedPrecedes(es, order, i, j);
    }
  }

  lemma DistinctConcat(a: seq<TxnId>, b: seq<TxnId>)
    requires Distinct(a) && Distinct(b) && forall t :: t in b ==> t !in a
    ensures Distinct(a + b)
  {
    forall i, j | 0 <= i < j < |a + b| ensures (a + b)[i] != (a + b)[j] {
      if i < |a| <= j {
        assert b[j - |a|] in b;
      }
    }
  }
}
