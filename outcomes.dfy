/** The failures the PHP code can raise, and a Result type that carries them.
    A thrown exception aborts the whole call, so every rewriting routine returns
    the first failure met in iteration order. */
module Outcomes {

  datatype Failure =
    /** MissingLocalizedAttributeException: the strict resolver could not confirm the candidate */
    | MissingLocalizedAttribute(attribute: string)
    /** TypeError: a non-string reached a `string` parameter under strict_types=1 */
    | TypeError
    /** Error: an object without __toString was cast to string */
    | ConversionError
    /** LogicException from the Symfony magic accessors: no property and no accessor */
    | NoSuchProperty(name: string)

  datatype Result<+T> = Ok(value: T) | Err(failure: Failure) {
    predicate IsFailure() {
      Err?
    }

    function PropagateFailure<U>(): Result<U>
      requires Err?
    {
      Err(failure)
    }

    function Extract(): T
      requires Ok?
    {
      value
    }
  }

  datatype Option<+T> = None | Some(value: T)
}
