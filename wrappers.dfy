/** A JavaScript value that may be absent. Each use says what `None` stands
    for: `undefined` and `null` course fields, a missing header, an `undefined`
    signup username. */
module Wrappers {
  datatype Option<+T> = None | Some(value: T)
}
