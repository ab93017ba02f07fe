/** Option and Result, for absent score-sheet fields and the one error the data mapper throws. */
module Wrappers {

  datatype Option<+T> = None | Some(value: T)

  datatype Result<+T> = Ok(value: T) | Err(error: string)
}
