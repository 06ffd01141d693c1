/** Small value types shared by the model: the "absent" marker, error returns,
    and the two exceptions the wrapper can raise on its own account. */
module Wrappers {

  /** Python's `None` used as an absent marker (find, nth, filter_map,
      zip_longest padding) and the end of iteration signalled by `__next__`. */
  datatype Option<+T> = None | Some(value: T)

  /** A value or the exception raised instead of returning it. */
  datatype Result<+T, +E> = Ok(value: T) | Err(error: E)

  datatype Error =
    | NegativeStop   // `itertools.islice` rejects a negative stop with a ValueError
    | EmptyReduce    // `functools.reduce` without an initializer raises a TypeError on an empty iterable

  function Min(a: int, b: int): int { if a <= b then a else b }

  function Max(a: int, b: int): int { if a <= b then b else a }
}
