/** Failure-carrying result types shared by the modules of the model. */
module Common {

  datatype Option<+T> = None | Some(value: T)

  /** A Rust `Result<T, String>`: the commands of the tool report every failure as a message. */
  datatype Result<+T> = Ok(value: T) | Err(error: string)
}
