/** Failure-compatible wrappers shared by every module of the model:
    `Option` stands for a C# reference that may be null, `Result` for a
    computation that may throw. */
module Wrappers {

  datatype Option<+T> = None | Some(value: T) {

    predicate IsFailure() {
      None?
    }

    function PropagateFailure<U>(): Option<U>
      requires None?
    {
      None
    }

    function Extract(): T
      requires Some?
    {
      value
    }

    /** `x ?? default` */
    function GetOr(default: T): T {
      match this
      case Some(v) => v
      case None => default
    }
  }

  /** What an operation of the model returns instead of throwing. */
  datatype Fault =
    | UnexpectedTag(tag: string)        // InvalidOperationException of the type resolver
    | MissingNode(id: string)           // KeyNotFoundException on the id dictionary
    | NullKey(what: string)             // ArgumentNullException: a dictionary key was null
    | NullReference(what: string)       // NullReferenceException on a missing attribute
    | DuplicateKey(key: string)         // ArgumentException of Dictionary.Add
    | BadNumber(text: string)           // FormatException / OverflowException of int.Parse
    | CyclicTypeChain(id: string)       // the source would loop forever on this type chain
    | NullArgument(what: string)        // ArgumentNullException of a constructor
    | OutOfRange(what: string)          // ArgumentOutOfRangeException of Substring

  datatype Result<+T> = Success(value: T) | Failure(error: Fault) {

    predicate IsFailure() {
      Failure?
    }

    function PropagateFailure<U>(): Result<U>
      requires Failure?
    {
      Failure(error)
    }

    function Extract(): T
      requires Success?
    {
      value
    }
  }
}
