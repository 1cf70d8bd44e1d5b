/** Optional values and settled outcomes shared by every part of the model. */
module Wrappers {

  /** A value that may be absent (`null` / `undefined` where the site checks for it). */
  datatype Option<+T> = None | Some(value: T)

  /** The outcome of one asynchronous read: fulfilled with a value, or rejected.
      The reason of a rejection is never inspected by the site, so it is not kept. */
  datatype Result<+T> = Ok(value: T) | Failed
}
