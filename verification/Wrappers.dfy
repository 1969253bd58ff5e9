/** Results and optional values, standing for the source's exceptions and `None`. */
module Wrappers {

  datatype Option<+T> = None | Some(value: T)

  /** How a call of the source can end without a value.
      `Invalid` stands for the exception that the callers expect and handle;
      `Fault` for a TypeError or ValueError that no caller handles. */
  datatype Error = Invalid | Fault

  datatype Result<+T> = Ok(value: T) | Err(error: Error) {
    predicate IsFailure() {
      Err?
    }

    function PropagateFailure<U>(): Result<U>
      requires Err?
    {
      Err(error)
    }

    function Extract(): T
      requires Ok?
    {
      value
    }
  }

  function Need(condition: bool, error: Error): (r: Result<()>)
    ensures r.Ok? <==> condition
  {
    if condition then Ok(()) else Err(error)
  }

  lemma CardinalityOfSubset<T>(a: set<T>, b: set<T>)
    requires a <= b
    ensures |a| <= |b|
  {
    if a != {} {
      var x :| x in a;
      CardinalityOfSubset(a - {x}, b - {x});
    }
  }
}
