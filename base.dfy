/** Failure-aware values shared by every module of the model. */
module Base {

  datatype Option<+T> = None | Some(value: T)

  /** The Python exceptions the extractors raise: `KeyError` for a missing
      field code, `IndexError` for an empty fragment list or an empty
      `findall` result, `TypeError` for a call with the wrong arguments or
      an index into `None`, `ValueError` for a number that does not parse,
      `AttributeError` for an attribute read on `None`, and `StopIteration`
      for `next` on an exhausted iterator. */
  datatype Fault = KeyError | IndexError | TypeError | ValueError | AttributeError | StopIteration

  /** The outcome of an extractor whose exception escapes to the caller. */
  datatype Result<+T> = Ok(value: T) | Err(fault: Fault)
}
