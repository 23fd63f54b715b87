// Calls that may fail: to the API server of the management cluster, to a workload cluster, to etcd.
module Calls {
  /** With a reliable server none fails. */
  method ApiFails(reliable: bool) returns (fails: bool)
    ensures reliable ==> !fails
  {
    fails := *;
    if reliable {
      fails := false;
    }
  }
}
