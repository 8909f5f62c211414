/** Failure-carrying datatypes shared by the struct layout model.
    Ruby raises exceptions; the model returns a `Failure` with the error kind instead. */
module Wrappers {

  datatype Option<+T> = None | Some(value: T)

  /** The error kinds raised by the struct layout engine. */
  datatype Error =
    | UnrecognizedFormat     // a bare width no unsigned base can hold, or a malformed "base: N" text
    | UnrecognizedType       // a "base: N" whose base is not a signed or unsigned integer type
    | IllegalFormat          // N exceeds the bit width of its base type
    | UnknownType(name: string)   // a type name missing from the type registry
    | MalformedDeclaration   // a declaration list the model does not accept (see README)
    | UnknownField(field: string) // a field name the layout does not declare
    | TypeMismatch           // a value of the wrong kind handed to a numeric field
    | NotModelled            // floating-point and pointer field access

  datatype Result<+R> = Success(value: R) | Failure(error: Error) {
    predicate IsFailure() {
      Failure?
    }

    function PropagateFailure<U>(): Result<U>
      requires Failure?
    {
      Failure(error)
    }

    function Extract(): R
      requires Success?
    {
      value
    }
  }
}
