/**
 The semaphore record: its value, and the threads waiting for it in the order in which they came.
 */
module Semaphores {
  type Tid = nat

  datatype Sema = Sema(value: nat, waiters: seq<Tid>)
}
