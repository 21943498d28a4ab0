/** The part of the `tch` crate that the conversions consume: element kinds and tensor headers. */
module Tch {

  /** Every variant of `tch::Kind`; only seven of them have an OpenCV counterpart. */
  datatype Kind =
    | Uint8 | Int8 | Int16 | Int | Int64 | Half | Float | Double
    | ComplexHalf | ComplexFloat | ComplexDouble | Bool | QInt8 | QUInt8 | QInt32 | BFloat16

  /** `Kind::elt_size_in_bytes`: the width of one scalar of the kind. */
  function EltSizeInBytes(kind: Kind): nat
  {
    match kind
    case Uint8 => 1
    case Int8 => 1
    case Int16 => 2
    case Int => 4
    case Int64 => 8
    case Half => 2
    case Float => 4
    case Double => 8
    case ComplexHalf => 4
    case ComplexFloat => 8
    case ComplexDouble => 16
    case Bool => 1
    case QInt8 => 1
    case QUInt8 => 1
    case QInt32 => 4
    case BFloat16 => 2
  }

  /** A tensor as the conversions see it: its size (one non-negative extent per axis) and its kind.
      Element values, devices and storage are not modelled. */
  datatype Tensor = Tensor(size: seq<nat>, kind: Kind)
}
