/** The one shared result type: a value, or the `None` / early return of the Python and JavaScript code. */
module Options {
  datatype Option<+T> = None | Some(value: T)
}
