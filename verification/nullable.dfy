/**
  Values that may be absent: the C code's NULL pointers, and the `sscanf`
  targets and conversions that produce nothing.
 */
module Nullable {

  /** `None` plays the part of NULL or of a conversion that failed. */
  datatype Option<T> = None | Some(value: T)
  {
    /** The value, or what the C variable held before: `fallback` when there is none. */
    function GetOr(fallback: T): T
    {
      if Some? then value else fallback
    }
  }
}
