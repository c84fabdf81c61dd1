/** An optional value: Go's nil error and the zero `time.Time` are both `None`. */
module Optional {

  datatype Option<T> = None | Some(value: T)
}
