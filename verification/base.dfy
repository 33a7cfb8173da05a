/**
  Small building blocks shared by the dashboard shell model: JavaScript's
  nullable values, the outcome of an event handler that may throw, and the
  truthiness test the shell applies to optional strings.
 */
module Base {

  /** A value that may be `null` or `undefined` in the shell. */
  datatype Option<+T> = None | Some(value: T) {

    /** The `x || fallback` idiom, for a value whose present form is never falsy. */
    function GetOr(fallback: T): T {
      match this
      case Some(v) => v
      case None => fallback
    }
  }

  /** What running an event handler leaves behind. A handler that throws has
      already made the assignments that precede the throwing statement, so
      both alternatives carry a state. */
  datatype Outcome<+S> =
    | Returned(state: S)
    | Threw(state: S, message: string)

  /** JavaScript truthiness of an optional string: `null`, `undefined` and the
      empty string are all falsy. */
  predicate Truthy(s: Option<string>) {
    s.Some? && s.value != ""
  }

  /** The message of the `TypeError` raised when a property of `undefined` is read. */
  const UndefinedPropertyError: string := "TypeError: cannot read property of undefined"
}
