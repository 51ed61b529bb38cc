/** Result types shared by every handler of the model. */
module Wrappers {

  datatype Option<+T> = None | Some(value: T)

  /** Why a handler did not produce its normal reply. */
  datatype Failure =
    /** An HTTPException the handler raises on purpose. */
    | Http(status: int, detail: string)
    /** Any other exception escaping the handler; the web framework answers it with 500. */
    | Crash(reason: string)

  datatype Result<+T> = Ok(value: T) | Err(failure: Failure)
  {
    predicate IsHttp(status: int) {
      Err? && failure.Http? && failure.status == status
    }
  }
}
