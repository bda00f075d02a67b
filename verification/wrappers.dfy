/** The result types shared by every module of the migration model, and the exceptions the
    modelled Python code raises. */
module Wrappers {

  datatype Option<+T> = None | Some(value: T)

  /** A value or the exception that replaced it. The three members are what Dafny's `:-`
      operator needs in order to pass a failure on. */
  datatype Result<+R, +E> = Success(value: R) | Failure(error: E) {
    predicate IsFailure() {
      Failure?
    }

    function PropagateFailure<U>(): Result<U, E>
      requires Failure?
    {
      Failure(error)
    }

    function Extract(): R
      requires Success?
    {
      value
    }
  }

  /** Pass/Fail for operations whose only result is a side effect. */
  datatype Outcome<+E> = Pass | Fail(error: E)

  /** The exceptions of the source, by the condition that raises them. */
  datatype Error =
    | MissingKey(key: string)          // KeyError on a dict lookup
    | NoRecord(collection: string)     // IndexError on `store.all()[0]` or a search `[0]`
    | UnparseableName(fullName: string)
    | MissingTitle                     // 'layer_properties must define title'
}
