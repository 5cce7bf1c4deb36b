/** Outcome types shared by the model: Python's `None` and its raised exceptions. */
module Results {

  datatype Option<T> = None | Some(value: T)

  /** The exceptions the modelled code raises. */
  datatype Error =
    | ValueError(message: string)   // a rejected value (missing label value, empty text)
    | IndexError                    // a list index outside the list
    | FormatError(message: string)  // a tag sequence that is not in IOB form
    | TypeError                     // arithmetic on a missing (`None`) offset

  datatype Result<T> = Success(value: T) | Failure(error: Error)
}
