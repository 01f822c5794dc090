/** The error values of the back end (`crate::lib::error::Error` and the older `TauriError`). */
module Errors {
  /** `lib::error::Error`: the variants the modelled code produces. */
  datatype Error =
    | AvroParse(message: string)
    | Kafka(message: string)
    | SqlError(message: string)

  /** `crate::error::TauriError`, used by the older consumer code. */
  datatype TauriError = TauriError(errorType: string, message: string)
}
