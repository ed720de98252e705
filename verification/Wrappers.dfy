/** Shared value types. */
module Wrappers {
  /** An optional value; `None` also marks a run one of whose steps is not enabled. */
  datatype Option<+T> = None | Some(value: T)

  predicate NoDuplicates(s: seq<nat>) {
    forall i, j | 0 <= i < j < |s| :: s[i] != s[j]
  }
}
