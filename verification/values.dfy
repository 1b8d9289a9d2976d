/** Values that flow through a pipeline, and what a user callable can do with them.

    The pipeline is untyped: any value can be an item, and `batch` turns a run of
    items into one list item.  Exceptions are values too, so that a callable that
    raises can be described by a total Dafny function.
 */
module Values {

  /** The conventional optional value (Python's `None` default arguments). */
  datatype Option<+T> = None | Some(value: T)

  /** An item of the pipeline: an integer, a string, or a list of items. */
  datatype Value = Int(i: int) | Str(s: string) | List(items: seq<Value>)

  /** An exception, identified by its class name and its message. */
  datatype Exc = Exc(kind: string, message: string)

  /** The exception Python raises for `raise None`: this is what a retry loop that
      never runs re-raises, because its "last exception" is still `None`. */
  const RaiseNone := Exc("TypeError", "exceptions must derive from BaseException")

  /** The exception Python raises for `per / rate` when `rate` is zero. */
  const ZeroDivision := Exc("ZeroDivisionError", "float division by zero")

  /** One call of a user callable that may fail: it returns a value or raises. */
  datatype Outcome = Returned(value: Value) | Raised(exc: Exc)
}
