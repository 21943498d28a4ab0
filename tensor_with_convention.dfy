/** `TensorAsImage`: a tensor tagged with the axis order it stores an image in. */
module TensorWithConvention {
  import opened Tch
  import opened Failures

  /** The image channel order of a tensor, named by its axes from first to last. */
  datatype ShapeConvention = Whc | Hwc | Chw | Cwh

  /** An image axis: height (rows), width (cols) or channel. */
  datatype Axis = H | W | C

  /** What each convention's name says: the image axis stored on each tensor axis. */
  function Letters(convention: ShapeConvention): (axes: seq<Axis>)
    ensures |axes| == 3 && multiset(axes) == multiset{H, W, C}
  {
    match convention
    case Whc => [W, H, C]
    case Hwc => [H, W, C]
    case Chw => [C, H, W]
    case Cwh => [C, W, H]
  }

  /** The axes of a tensor of the given rank under a convention: rank 3 stores all three;
      rank 2 has no channel axis and keeps the order of the other two. */
  function AxesOfRank(convention: ShapeConvention, rank: nat): seq<Axis>
  {
    if rank == 3 then Letters(convention)
    else match convention
      case Whc => [W, H]
      case Hwc => [H, W]
      case Chw => [H, W]
      case Cwh => [W, H]
  }

  /** A tensor with an image shape convention, to be converted to a `Mat`. */
  datatype TensorAsImage = TensorAsImage(tensor: Tensor, convention: ShapeConvention)

  /** `TensorAsImage::new`: accepts exactly the rank-2 and rank-3 tensors, keeping the tensor
      and the convention as given, and refuses any other rank naming the tensor's size. */
  function New(tensor: Tensor, convention: ShapeConvention): (r: Result<TensorAsImage>)
    ensures r.Ok? <==> |tensor.size| == 2 || |tensor.size| == 3
    ensures r.Ok? ==> r.value.tensor == tensor && r.value.convention == convention
    ensures r.Err? ==> r.error == UnsupportedTensorSize(tensor.size)
  {
    match |tensor.size|
    case 2 | 3 => Ok(TensorAsImage(tensor, convention))
    case _ => Err(UnsupportedTensorSize(tensor.size))
  }
}
