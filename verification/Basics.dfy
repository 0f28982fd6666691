/** Shared vocabulary of the model: optional values, fallible results, and the
    "first n" prefix that every paged answer of the calendar is stated with. */
module Basics {

  datatype Option<+T> = None | Some(value: T)

  /** A fallible result. The source attaches a message to every failure; the
      model keeps only the fact that the operation failed. */
  datatype Result<+T> = Ok(value: T) | Err {
    predicate IsFailure() { Err? }
    function PropagateFailure<U>(): Result<U>
      requires Err?
    {
      Err
    }
    function Extract(): T
      requires Ok?
    {
      value
    }
  }

  function First<T>(n: nat, s: seq<T>): (r: seq<T>)
    ensures |r| == if |s| <= n then |s| else n
    ensures r <= s
  {
    if |s| <= n then s else s[..n]
  }
}
