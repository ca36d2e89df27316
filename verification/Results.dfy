/** Failure-carrying values used in place of the compiler's exceptions and null references. */
module Results {

  datatype Option<+T> = None | Some(value: T)

  datatype Result<+T, +E> = Ok(value: T) | Err(error: E) {
    predicate IsFailure() { Err? }

    function PropagateFailure<U>(): Result<U, E>
      requires Err?
    {
      Err(error)
    }

    function Extract(): T
      requires Ok?
    {
      value
    }
  }

  /** A step that either completes or fails, with nothing to return. */
  datatype Outcome<+E> = Pass | Fail(error: E) {
    predicate IsFailure() { Fail? }

    function PropagateFailure(): Outcome<E>
      requires Fail?
    {
      this
    }
  }

  /** The exceptions a compilation can end with. */
  datatype CompileError =
    | UnknownFeature(name: string)                 // dictionary lookup of an unregistered feature
    | NotASwitchFeature(name: string)              // a plain feature cast to a switch feature
    | UnknownMessageStyle(style: string, outer: string)
    | UnknownTag(tag: string, snippet: string)
    | NotAChild                                    // previous-sibling lookup cannot find the message
    | NoParent                                     // previous-sibling lookup on the root element
    | EmptyContext                                 // first element of an empty status context
    | UnexpectedChild                              // a switch child that is no case, an options child that is no option
    | EmptySceneList                               // the built main list has no first element
    | EmptyGuard                                   // a dispatch guard over an empty status context
}
