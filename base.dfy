/** Failure-carrying results for the operations of autoStattic.py that can raise. */
module Base {

  datatype Option<+T> = None | Some(value: T)

  /** The Python exceptions that escape convert_post_to_md and the term-table comprehension. */
  datatype PyError =
    | KeyError        // a subscript on a dictionary that lacks the key
    | TypeError       // an unhashable key, a non-iterable id list, a subscript on a non-dictionary
    | AttributeError  // `.get` or `.replace` called on a value that lacks it
    | ConverterInput  // the HTML-to-Markdown converter handed something that is not a string

  datatype Result<+T> = Ok(value: T) | Err(error: PyError) {
    predicate IsFailure() { Err? }

    function PropagateFailure<U>(): Result<U>
      requires Err?
    {
      Err(error)
    }

    function Extract(): T
      requires Ok?
    {
      value
    }
  }

  /** Concatenation regrouped; stated once so that proofs need not rediscover it. */
  lemma ConcatAssoc<T>(p: seq<T>, q: seq<T>, r: seq<T>)
    ensures p + (q + r) == (p + q) + r
  {
  }
}
