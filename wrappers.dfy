/** Option and Result, the two failure-carrying shapes the model uses. */
module Wrappers {

  datatype Option<+T> = None | Some(value: T)

  /** The Python exceptions the modelled code can raise. */
  datatype PyError =
    | TypeError
    | ValueError
    | AttributeError
    | UnboundLocalError(variable: string)
    | IntegrityError
    | PendingRollbackError

  datatype Result<+T> = Ok(value: T) | Err(error: PyError)

  /** Where a line of the source does evidently not do what its authors
      meant, the model carries both readings: the code as written and the
      corrected one. */
  datatype Variant = AsWritten | Corrected
}
