/** Optional values and the outcome of an operation that can be refused. */
module Options {
  datatype Option<+T> = None | Some(value: T)

  datatype Outcome<+E> = Done | Refused(error: E)
}
