/** A value that may be absent: what a durable storage `get` returns for a key
    that was never written. */
module Optional {

  datatype Option<+T> = None | Some(value: T)
}
