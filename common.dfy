/** Small value types shared by every module of the model. */
module Common {

  /** A value that may be missing: pandas' NaN / None. */
  datatype Option<T> = None | Some(value: T)

  /** A computation that either succeeds or stops with an error, in place of a raised exception. */
  datatype Result<T, E> = Ok(value: T) | Err(error: E)

  /** Python's `sep.join(items)`. */
  function Join(items: seq<string>, sep: string): string
  {
    if |items| == 0 then ""
    else if |items| == 1 then items[0]
    else items[0] + sep + Join(items[1..], sep)
  }
}
