/** A value that may be absent. */
module Optional {

  datatype Option<T> = None | Some(value: T)

  /** The first value that is there, as `??` chooses it. */
  function Or<T>(first: Option<T>, second: Option<T>): Option<T> {
    if first.Some? then first else second
  }
}
