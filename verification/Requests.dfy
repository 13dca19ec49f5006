/** Requests to the kernel, which may fail for reasons outside the model. */
module Requests {
  /** Whether a request gets through: always when the kernel is reliable, otherwise as it likes. */
  method Request(reliable: bool) returns (ok: bool)
    ensures reliable ==> ok
  {
    if reliable {
      ok := true;
    } else {
      ok := *;
    }
  }
}
