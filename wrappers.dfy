/** Failure-compatible wrappers shared by every module of the model.
    Python exceptions that the converter raises (and does not catch) become
    an `Err` carrying an `Error`; `None` stands for Python's `None`. */
module Wrappers {

  datatype Option<+T> = None | Some(value: T)

  /** The exceptions the modelled code can raise. */
  datatype Error =
    | TypeError(reason: string)       // a value of the wrong type reached an operation
    | ValueError(reason: string)      // "Unsupported output format: ..."
    | AttributeError(name: string)    // a missing attribute or method was used
    | ForeignError(call: string)      // a collaborator (parser, pandas, serialiser) raised

  datatype Result<+T> = Ok(value: T) | Err(error: Error) {

    predicate IsFailure() {
      Err?
    }

    function PropagateFailure<U>(): Result<U>
      requires Err?
    {
      Err(error)
    }

    function Extract(): T
      requires Ok?
    {
      value
    }
  }

  /** Lifts an Option produced by a collaborator into a Result: `None` means the call raised. */
  function OrRaise<T>(o: Option<T>, call: string): (r: Result<T>)
    ensures r.Ok? <==> o.Some?
    ensures r.Ok? ==> r.value == o.value
    ensures r.Err? ==> r.error == ForeignError(call)
  {
    match o
    case Some(v) => Ok(v)
    case None => Err(ForeignError(call))
  }
}
