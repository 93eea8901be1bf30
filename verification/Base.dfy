/** Types shared by every module: wire bytes, instants, and the usual wrappers. */
module Base {
  newtype byte = x: int | 0 <= x < 256

  /** A Python `str` as its UTF-8 bytes. Every character the code tests for ('/', '+', '#', '{', '.')
      is ASCII, and an ASCII byte never occurs inside a longer UTF-8 sequence. */
  type Text = seq<byte>

  /** A `datetime`, in microseconds. A `timedelta` is an `int` in the same unit. */
  type Instant = int

  const MICROS_PER_MS := 1_000

  datatype Option<+T> = None | Some(value: T)

  /** A returned value or a raised exception. */
  datatype Result<+T, +E> = Ok(value: T) | Err(error: E) {
    predicate IsFailure() { Err? }

    function PropagateFailure<U>(): Result<U, E>
      requires Err?
    {
      Err(error)
    }

    function Extract(): T
      requires Ok?
    {
      value
    }
  }
}
