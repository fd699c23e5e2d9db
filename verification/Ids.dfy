/** Transaction and resource ids, unbounded. */
module Ids {
  type TxnId = nat
  type ResId = nat
}
