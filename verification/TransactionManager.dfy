/** The transaction table: active and completed transactions, the next id, and the two counters. */
module Transactions {
  import opened AscendingIds
  import opened Decimal
  import opened Ids

  datatype TransactionState = ACTIVE | COMMITTED | ABORTED | WAITING

  const INITIAL_TXN_ID := 1

  ghost function MarkedAborted(ids: set<TxnId>): map<TxnId, TransactionState> {
    map t | t in ids :: ABORTED
  }

  lemma NoneAborted(m: map<TxnId, TransactionState>, all: set<TxnId>)
    ensures m + MarkedAborted(all * Members([])) == m
  {
  }

  /** Aborting the next id marks it when it was still active. */
  lemma OneMoreAborted(m: map<TxnId, TransactionState>, all: set<TxnId>, ids: seq<TxnId>, i: nat)
    requires i < |ids|
    ensures var before := m + MarkedAborted(all * Members(ids[..i]));
            var after := m + MarkedAborted(all * Members(ids[..i + 1]));
            after == (if ids[i] in all - Members(ids[..i]) then before[ids[i] := ABORTED] else before)
  {
    assert ids[..i + 1] == ids[..i] + [ids[i]];
    MembersSnoc(ids[..i], ids[i]);
    var now := MarkedAborted(all * Members(ids[..i + 1]));
    var was := MarkedAborted(all * Members(ids[..i]));
    if ids[i] in all - Members(ids[..i]) {
      assert now == was[ids[i] := ABORTED];
    } else {
      assert now == was;
    }
  }

  class TransactionManager {
    var activeTransactions: map<TxnId, TransactionState>
    var completedTransactions: map<TxnId, TransactionState>
    var nextTransactionId: nat
    var committedCount: nat
    var abortedCount: nat

    ghost function Active(): set<TxnId>
      reads this
    {
      activeTransactions.Keys
    }

    /** Every id ever given out is active or was counted once, as committed or as aborted. */
    ghost predicate Valid()
      reads this
    {
      && INITIAL_TXN_ID <= nextTransactionId <= TWO_32
      && (forall t :: t in activeTransactions ==>
            INITIAL_TXN_ID <= t < nextTransactionId && activeTransactions[t] == ACTIVE)
      && (forall t :: t in completedTransactions ==>
            && t !in activeTransactions && INITIAL_TXN_ID <= t < nextTransactionId
            && completedTransactions[t] in {COMMITTED, ABORTED})
      && |Active()| + committedCount + abortedCount == nextTransactionId - INITIAL_TXN_ID
    }

    /** The ids of active transactions fit the log's 32 bits. */
    lemma ActiveIdIsSmall(t: TxnId)
      requires Valid() && t in Active()
      ensures t < TWO_32
    {
    }

    constructor ()
      ensures Valid() && Active() == {} && nextTransactionId == 1
      ensures committedCount == 0 && abortedCount == 0
    {
      activeTransactions, completedTransactions := map[], map[];
      nextTransactionId, committedCount, abortedCount := INITIAL_TXN_ID, 0, 0;
    }

    /** The id counter is not at its wrap-around. */
    method BeginTransaction() returns (t: TxnId)
      requires Valid() && nextTransactionId < TWO_32
      modifies this
      ensures Valid() && t == old(nextTransactionId) && t !in old(Active())
      ensures Active() == old(Active()) + {t} && nextTransactionId == t + 1
      ensures committedCount == old(committedCount) && abortedCount == old(abortedCount)
      ensures completedTransactions == old(completedTransactions)
    {
      t := nextTransactionId;
      nextTransactionId := nextTransactionId + 1;
      activeTransactions := activeTransactions[t := ACTIVE];
      assert Active() == old(Active()) + {t};
    }

    method CommitTransaction(t: TxnId) returns (ok: bool)
      requires Valid()
      modifies this
      ensures Valid() && nextTransactionId == old(nextTransactionId) && abortedCount == old(abortedCount)
      ensures ok <==> t in old(Active())
      ensures Active() == old(Active()) - {t}
      ensures committedCount == old(committedCount) + (if ok then 1 else 0)
      ensures completedTransactions
           == if ok then old(completedTransactions)[t := COMMITTED] else old(completedTransactions)
    {
      ok := t in activeTransactions;
      if ok {
        committedCount := committedCount + 1;
        completedTransactions := completedTransactions[t := COMMITTED];
        activeTransactions := activeTransactions - {t};
        assert old(Active()) == Active() + {t};
      }
    }

    method AbortTransaction(t: TxnId) returns (ok: bool)
      requires Valid()
      modifies this
      ensures Valid() && nextTransactionId == old(nextTransactionId) && committedCount == old(committedCount)
      ensures ok <==> t in old(Active())
      ensures Active() == old(Active()) - {t}
      ensures abortedCount == old(abortedCount) + (if ok then 1 else 0)
      ensures completedTransactions
           == if ok then old(completedTransactions)[t := ABORTED] else old(completedTransactions)
    {
      ok := t in activeTransactions;
      if ok {
        abortedCount := abortedCount + 1;
        completedTransactions := completedTransactions[t := ABORTED];
        activeTransactions := activeTransactions - {t};
        assert old(Active()) == Active() + {t};
      }
    }

    method IsTransactionActive(t: TxnId) returns (active: bool)
      requires Valid()
      ensures active <==> t in Active()
    {
      active := t in activeTransactions && activeTransactions[t] == ACTIVE;
    }

    method GetActiveTransactionIds() returns (ids: seq<TxnId>)
      ensures ids == Ascending(Active())
    {
      ids := InOrder(activeTransactions.Keys);
    }

    method AbortEach(ids: seq<TxnId>)
      requires Valid()
      modifies this
      ensures Valid() && nextTransactionId == old(nextTransactionId) && committedCount == old(committedCount)
      ensures Active() == old(Active()) - Members(ids)
      ensures completedTransactions == old(completedTransactions) + MarkedAborted(old(Active()) * Members(ids))
    {
      hide Valid, Active, Members;
      NoneAborted(completedTransactions, Active());
      MembersSnoc([], 0);
      NothingMissing(Active());
      for i := 0 to |ids|
        invariant Valid() && nextTransactionId == old(nextTransactionId) && committedCount == old(committedCount)
        invariant Active() == old(Active()) - Members(ids[..i])
        invariant completedTransactions == old(completedTransactions) + MarkedAborted(old(Active()) * Members(ids[..i]))
      {
        var ok := AbortTransaction(ids[i]);
        OneMoreMissing(old(Active()), ids, i);
        OneMoreAborted(old(completedTransactions), old(Active()), ids, i);
      }
      assert ids[..|ids|] == ids;
    }

    method AbortAllTransactions()
      requires Valid()
      modifies this
      ensures Valid() && Active() == {} && nextTransactionId == old(nextTransactionId)
      ensures committedCount == old(committedCount)
      ensures abortedCount == old(abortedCount) + |old(Active())|
      ensures completedTransactions == old(completedTransactions) + MarkedAborted(old(Active()))
    {
      hide Ascending;
      var ids := GetActiveTransactionIds();
      AscendingIsSorted(Active());
      assert Members(ids) == Active() && Active() * Members(ids) == Active();
      AbortEach(ids);
    }

    method ClearCompletedTransactions()
      requires Valid()
      modifies this
      ensures Valid() && completedTransactions == map[] && Active() == old(Active())
      ensures committedCount == old(committedCount) && abortedCount == old(abortedCount)
      ensures nextTransactionId == old(nextTransactionId)
    {
      completedTransactions := map[];
    }
  }
}
