/** Results of the record-access operations: a value, or the error text the
    Go code returns through `fmt.Errorf`. */
module Outcomes {

  datatype Option<T> = None | Some(value: T)

  datatype Result<T> = Ok(value: T) | Err(msg: string)
}
