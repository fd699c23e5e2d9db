/** The lock modes of the hierarchical lock manager and the two relations on them:
    compatibility (what the code checks) and covering (what a replacement should respect). */
module LockModes {

  datatype LockType = NONE | SHARED | EXCLUSIVE | INTENTION_SHARED | INTENTION_EXCLUSIVE

  predicate IsCompatible(existing: LockType, requested: LockType) {
    if existing == EXCLUSIVE || requested == EXCLUSIVE then false
    else if existing == SHARED && requested == INTENTION_EXCLUSIVE then false
    else if existing == INTENTION_EXCLUSIVE && requested == SHARED then false
    else true
  }

  /** Every check in the lock manager asks both ways round. */
  predicate Compatible(a: LockType, b: LockType) {
    IsCompatible(a, b) && IsCompatible(b, a)
  }

  /** The whole table: X goes with nothing, S and IX do not go together, everything else does. */
  lemma CompatibilityTable(a: LockType, b: LockType)
    ensures Compatible(a, b) <==>
              && a != EXCLUSIVE && b != EXCLUSIVE
              && !(a == SHARED && b == INTENTION_EXCLUSIVE) && !(a == INTENTION_EXCLUSIVE && b == SHARED)
    ensures IsCompatible(a, b) == IsCompatible(b, a)
  {
  }

  /** The mode requested on every ancestor before `requested` itself. */
  function AncestorIntention(requested: LockType): LockType {
    if requested == EXCLUSIVE || requested == INTENTION_EXCLUSIVE then INTENTION_EXCLUSIVE
    else if requested == SHARED || requested == INTENTION_SHARED then INTENTION_SHARED
    else NONE
  }

  /** The usual strength order: NONE < IS < {S, IX} < X. */
  predicate Covers(strong: LockType, weak: LockType) {
    || strong == weak
    || weak == NONE
    || strong == EXCLUSIVE
    || (weak == INTENTION_SHARED && strong != NONE)
  }

  /** The strength order as the compatibility table has it: there NONE blocks exactly like IS. */
  predicate BlocksAsMuch(strong: LockType, weak: LockType) {
    Covers(strong, weak) || (strong == NONE && weak == INTENTION_SHARED)
  }

  /** The order and the compatibility table determine each other, for all modes. */
  lemma BlocksAsMuchIff(strong: LockType, weak: LockType)
    ensures BlocksAsMuch(strong, weak) <==> forall x :: Compatible(strong, x) ==> Compatible(weak, x)
  {
    if !BlocksAsMuch(strong, weak) {
      var x := if weak == EXCLUSIVE then INTENTION_SHARED
               else if weak == SHARED then INTENTION_EXCLUSIVE
               else SHARED;
      assert Compatible(strong, x) && !Compatible(weak, x);
    }
  }

  lemma CoversTransitive(a: LockType, b: LockType, c: LockType)
    requires Covers(a, b) && Covers(b, c)
    ensures Covers(a, c)
  {
  }
}
