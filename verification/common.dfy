/** Failure-carrying wrappers shared by the whole model. */
module Common {

  /** Python's `None`-or-value. */
  datatype Option<+T> = None | Some(value: T)

  /** A value, or the error that an operation raised instead of returning it. */
  datatype Result<+T, +E> = Ok(value: T) | Err(error: E)

  /** `str(KeyError(key))` is the `repr` of the key: the key between single quotes.
      (Python switches to double quotes and escapes for keys holding quotes; the model does not.) */
  function KeyErrorText(key: string): (s: string)
    ensures |s| == |key| + 2 && s[0] == '\'' && s[|s| - 1] == '\''
    ensures s[1..|s| - 1] == key
  {
    "'" + key + "'"
  }
}
