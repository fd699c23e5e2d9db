/** Finite sets of ids visited in ascending order, as std::set and std::map visit them. */
module AscendingIds {

  ghost predicate IsLeast(m: nat, ids: set<nat>) {
    m in ids && forall x :: x in ids ==> m <= x
  }

  lemma {:induction false} LeastExists(ids: set<nat>)
    requires ids != {}
    ensures exists m :: IsLeast(m, ids)
    decreases |ids|
  {
    var a :| a in ids;
    if ids == {a} {
      assert IsLeast(a, ids);
    } else {
      LeastExists(ids - {a});
      var m :| IsLeast(m, ids - {a});
      assert forall x :: x in ids ==> x == a || x in ids - {a};
      assert IsLeast(if a < m then a else m, ids);
    }
  }

  ghost function Ascending(ids: set<nat>): seq<nat>
    decreases |ids|
  {
    if ids == {} then []
    else
      LeastExists(ids);
      var m :| IsLeast(m, ids);
      [m] + Ascending(ids - {m})
  }

  lemma NoneAscending()
    ensures Ascending({}) == []
  {
  }

  ghost predicate StrictlySorted(s: seq<nat>) {
    forall i, j :: 0 <= i < j < |s| ==> s[i] < s[j]
  }

  /** The least element first: the only way an ascending list can start. */
  lemma AscendingStep(ids: set<nat>, m: nat)
    requires IsLeast(m, ids)
    ensures Ascending(ids) == [m] + Ascending(ids - {m})
  {
  }

  lemma {:induction false} AscendingIsSorted(ids: set<nat>)
    ensures StrictlySorted(Ascending(ids))
    ensures forall t :: t in Ascending(ids) <==> t in ids
    decreases |ids|
  {
    if ids != {} {
      LeastExists(ids);
      var m :| IsLeast(m, ids);
      AscendingStep(ids, m);
      AscendingIsSorted(ids - {m});
      var rest := Ascending(ids - {m});
      forall i, j | 0 <= i < j < |rest| + 1 ensures ([m] + rest)[i] < ([m] + rest)[j] {
        assert rest[j - 1] in ids - {m};
      }
    }
  }

  lemma {:induction false} AscendingLength(ids: set<nat>)
    ensures |Ascending(ids)| == |ids|
    decreases |ids|
  {
    if ids != {} {
      LeastExists(ids);
      var m :| IsLeast(m, ids);
      AscendingStep(ids, m);
      AscendingLength(ids - {m});
    }
  }

  ghost function Members(ids: seq<nat>): set<nat> {
    set t | t in ids
  }

  lemma {:induction false} AscendingAfterSome(ids: set<nat>, k: nat)
    requires k <= |Ascending(ids)|
    ensures Ascending(ids - Members(Ascending(ids)[..k])) == Ascending(ids)[k..]
    decreases k
  {
    var s := Ascending(ids);
    if k == 0 {
      assert ids - Members(s[..0]) == ids;
    } else {
      var rest := ids - {s[0]};
      assert s == [s[0]] + Ascending(rest);
      AscendingAfterSome(rest, k - 1);
      assert s[..k] == [s[0]] + Ascending(rest)[..k - 1];
      assert ids - Members(s[..k]) == rest - Members(Ascending(rest)[..k - 1]);
    }
  }

  lemma MembersSnoc(ids: seq<nat>, t: nat)
    ensures Members([]) == {}
    ensures Members(ids + [t]) == Members(ids) + {t}
  {
  }

  lemma NothingMissing(all: set<nat>)
    ensures all - Members([]) == all
  {
  }

  lemma OneMoreMissing(all: set<nat>, ids: seq<nat>, i: nat)
    requires i < |ids|
    ensures all - Members(ids[..i + 1]) == all - Members(ids[..i]) - {ids[i]}
  {
    assert ids[..i + 1] == ids[..i] + [ids[i]];
    MembersSnoc(ids[..i], ids[i]);
  }

  method LeastOf(ids: set<nat>) returns (m: nat)
    requires ids != {}
    ensures IsLeast(m, ids)
  {
    LeastExists(ids);
    m :| m in ids && forall x :: x in ids ==> m <= x;
  }

  /** Visiting a set from the least element up. */
  method InOrder(ids: set<nat>) returns (visited: seq<nat>)
    ensures visited == Ascending(ids)
  {
    hide Ascending;
    NoneAscending();
    visited := [];
    var rest := ids;
    while rest != {}
      invariant Ascending(ids) == visited + Ascending(rest)
      decreases rest
    {
      var m := LeastOf(rest);
      AscendingStep(rest, m);
      visited, rest := visited + [m], rest - {m};
    }
  }
}
