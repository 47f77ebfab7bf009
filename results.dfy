/** Failure-carrying wrappers shared by the model: `Option` for Rust's `Option`,
    `Result` for `Fallible` / `anyhow::Result`, whose error is a message. */
module Results {

  datatype Option<+T> = None | Some(value: T)

  datatype Result<+T> = Ok(value: T) | Err(error: string)

  /** The unit value `()`, carried by `Ok(())`. */
  datatype Unit = Unit
}
