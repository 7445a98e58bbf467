/** The absent-or-present result the ledger returns where Python returns `None` or a value. */
module Wrappers {
  datatype Option<T> = None | Some(value: T)
}
