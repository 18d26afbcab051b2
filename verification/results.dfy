/** Optional values and the error outcomes the administration backend reports. */
module Results {

  datatype Option<+T> = None | Some(value: T)

  /** How a failure is classified for the caller. A temporary error is
      expected to clear by itself, so the caller should retry later; a
      permanent one needs intervention. Message texts are not modelled. */
  datatype Error =
    | Permanent
    | Temporary(activeSessions: int)

  datatype Result<+T> = Ok(value: T) | Err(error: Error)
}
