/** Option and Max, shared by the modules of the render-core model. */
module Wrappers {

  /** A device buffer pointer that may still be null. */
  datatype Option<+T> = None | Some(value: T)

  function Max(a: int, b: int): int
  {
    if a < b then b else a
  }
}
