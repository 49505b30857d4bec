/** Shared vocabulary: optional values, results, the Python exceptions the core
    raises, and opaque timestamps. */
module Base {

  datatype Option<+T> = None | Some(value: T)

  /** A value or the exception that the Python code would raise instead.
      Failure-compatible, so `:-` propagates an error the way Python unwinds. */
  datatype Result<+T, +E> = Ok(value: T) | Err(error: E) {
    predicate IsFailure() {
      Err?
    }

    function PropagateFailure<U>(): Result<U, E>
      requires Err?
    {
      Err(error)
    }

    function Extract(): T
      requires Ok?
    {
      value
    }
  }

  /** The exception classes raised by the core, each with its message text. */
  datatype Error =
    | TypeError(message: string)
    | KeyError(message: string)
    | ValueError(message: string)
    | RuntimeError(message: string)
    | OSError(message: string)
    | FileNotFoundError(message: string)
    | JSONDecodeError(message: string)
    | CodecError(message: string)

  /** A `datetime` value. Its structure is not modelled: two timestamps are
      equal exactly when their tick counts are. */
  datatype DateTime = DateTime(ticks: int)

  /** `datetime.isoformat` and `datetime.fromisoformat`, which live outside the
      core; `parse` answers None where `fromisoformat` raises ValueError. */
  datatype IsoCodec = IsoCodec(format: DateTime -> string, parse: string -> Option<DateTime>)

  /** What Python guarantees of the pair: parsing a formatted timestamp gives it back. */
  ghost predicate IsoRoundTrips(iso: IsoCodec)
  {
    forall t :: iso.parse(iso.format(t)) == Some(t)
  }
}
