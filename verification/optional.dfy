/** A value that may be absent: the model's rendering of a Java reference that may be null. */
module Optional {

  datatype Option<T> = None | Some(value: T)
}
