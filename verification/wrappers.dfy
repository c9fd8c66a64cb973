/** Optional values and results shared by every solver model.
    `None` and `Err` stand for the places where the Rust code panics
    (an `unwrap` on nothing, an index out of range, `panic!`, `unimplemented!`). */
module Wrappers {

  datatype Option<+T> = None | Some(value: T)

  datatype Result<+T, +E> = Ok(value: T) | Err(error: E)

  function Min(a: int, b: int): int
  {
    if a <= b then a else b
  }

  function Max(a: int, b: int): int
  {
    if a <= b then b else a
  }

  function Abs(a: int): nat
  {
    if a < 0 then -a else a
  }
}
