/** Python's `None` / value distinction, used for optional configuration
    fields and for receipts that are not yet available. */
module Optional {
  datatype Option<+T> = None | Some(value: T)
}
