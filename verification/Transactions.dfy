/** Statements of a transaction, any of which may raise. */
module Transactions {

  import opened Wrappers

  /** Whether one of the first `statements` statements raises: `faultAt` is the number of the one that does. */
  predicate Faulty(faultAt: Option<nat>, statements: nat) {
    faultAt.Some? && faultAt.value < statements
  }

  /** Statements count down to the one that raises. */
  method Statement(faultAt: Option<nat>) returns (ok: bool, left: Option<nat>)
    ensures ok <==> faultAt != Some(0)
    ensures ok && faultAt.Some? ==> left == Some(faultAt.value - 1)
    ensures faultAt.None? ==> left == None
  {
    ok, left := true, faultAt;
    if faultAt.Some? {
      if faultAt.value == 0 {
        ok := false;
      } else {
        left := Some(faultAt.value - 1);
      }
    }
  }
}
