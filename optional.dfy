/** Values that may be absent (body fields, the session user, the environment) and the JavaScript truthiness test applied to them. */
module Optional {

  /** A value that a request body, a session or the environment may or may not carry. */
  datatype Option<+T> = None | Some(value: T)

  /** `if (x)` on a string that may be undefined: it holds when the value is given and non-empty. */
  predicate Present(o: Option<string>)
  {
    o.Some? && o.value != ""
  }
}
