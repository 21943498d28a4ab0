/** The errors the conversions report (each `bail!`/`ensure!` of the source, and OpenCV's
    rejection of a negative extent), and the result type that carries them. */
module Failures {
  import opened Tch

  datatype Error =
    | UnsupportedMatType(typ: int)
    | NonContinuousMat
    | UnsupportedTensorSize(size: seq<nat>)
    | UnsupportedTensorShape(shape: seq<nat>)
    | UnsupportedKindAndChannels(kind: Kind, channels: int)
    | UnsupportedTensorKind(kind: Kind)
    | NegativeMatSize(sizes: seq<int>)

  datatype Result<+T> = Ok(value: T) | Err(error: Error) {
    predicate IsFailure() {
      Err?
    }

    function PropagateFailure<U>(): Result<U>
      requires Err?
    {
      Err(error)
    }

    function Extract(): T
      requires Ok?
    {
      value
    }
  }

  datatype Option<+T> = None | Some(value: T)
}
