/** What the other modules share. */
module Basics {
  datatype Option<+T> = None | Some(value: T)

  /** 1 or 0, for counting. */
  function B(b: bool): nat {
    if b then 1 else 0
  }

  function Min(a: int, b: int): int {
    if a < b then a else b
  }
}
