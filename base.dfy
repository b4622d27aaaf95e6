/** Error values and the Result/Option wrappers shared by every module.
    The error constructors name the Python exceptions the modelled code raises. */
module Base {

  datatype Error =
    | KeyError
    | ValueError
    | IndexError
    | AttributeError
    | AssertionError
    | RuntimeError
    | NameError
      /** A failure reported by one of the network fetch oracles. */
    | FetchFailed(reason: string)

  datatype Option<+T> = None | Some(value: T)

  datatype Result<+T> = Ok(value: T) | Err(error: Error) {
    predicate IsFailure() {
      Err?
    }

    function PropagateFailure<U>(): Result<U>
      requires Err?
    {
      Err(error)
    }

    function Extract(): T
      requires Ok?
    {
      value
    }
  }

  /** The elements of a sequence with one more element at the end. */
  lemma ElementsSnoc<T>(p: seq<T>, x: T)
    ensures (set y | y in p + [x]) == (set y | y in p) + {x}
  {
  }
}
