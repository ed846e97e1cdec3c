/** The success-or-exception value returned by the two model calls (OCR and table synthesis). */
module ModelCalls {

  /** Ok carries the returned text; Err carries the message of the exception that was raised. */
  datatype Result<T> = Ok(value: T) | Err(error: string)
}
