/** Failure-compatible wrapper used where an unseen Java call may throw. */
module Wrappers {

  /** `None` stands for a call that threw; `Some(v)` for one that returned `v`. */
  datatype Option<+T> = None | Some(value: T)
}
