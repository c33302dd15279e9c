/** The exceptions raised by the configuration and record layer, by Python class. */
module Errors {

  datatype Error =
      /** `imageroller.ConfigError`, raised by the configuration readers. */
    | ConfigError(message: string)
      /** Python's built-in `ValueError`. */
    | ValueError(message: string)
      /** Python's built-in `TypeError`, here from arithmetic on a missing setting. */
    | TypeError(message: string)
      /** Python's built-in `OverflowError`, here from a `timedelta` out of range. */
    | OverflowError(message: string)
}
