/** The conventional optional value: `None` stands for JavaScript's
    `undefined`/falsy result, `Some(v)` for a present value. */
module Wrappers {

  datatype Option<+T> = None | Some(value: T)

}
