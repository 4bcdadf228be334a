/** An optional value: `None` where the component produces no usable result. */
module Optional {

  datatype Option<+T> = None | Some(value: T)
}
