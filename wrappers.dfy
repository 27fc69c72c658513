/** The optional value used where the game reads a block that may be absent. */
module Wrappers {

  /** `None` stands for JavaScript's `undefined` (an empty tower has no top block). */
  datatype Option<+T> = None | Some(value: T)
}
