/** The part of OpenCV's `core` module that the conversions consume: type codes and `Mat` headers. */
module Cv {
  import opened Layout
  import opened Addressing

  /** Depth codes of OpenCV's type encoding. */
  const CV_8U: int := 0
  const CV_8S: int := 1
  const CV_16U: int := 2
  const CV_16S: int := 3
  const CV_32S: int := 4
  const CV_32F: int := 5
  const CV_64F: int := 6
  const CV_16F: int := 7

  /** The 28 type codes the conversions know. `CV_MAKETYPE(depth, cn)` puts the depth in the
      low three bits and `cn - 1` above them, so `CV_8UC2` is 0 + 1 * 8. */
  const CV_8UC1: int := 0
  const CV_8UC2: int := 8
  const CV_8UC3: int := 16
  const CV_8UC4: int := 24
  const CV_8SC1: int := 1
  const CV_8SC2: int := 9
  const CV_8SC3: int := 17
  const CV_8SC4: int := 25
  const CV_16SC1: int := 3
  const CV_16SC2: int := 11
  const CV_16SC3: int := 19
  const CV_16SC4: int := 27
  const CV_16FC1: int := 7
  const CV_16FC2: int := 15
  const CV_16FC3: int := 23
  const CV_16FC4: int := 31
  const CV_32SC1: int := 4
  const CV_32SC2: int := 12
  const CV_32SC3: int := 20
  const CV_32SC4: int := 28
  const CV_32FC1: int := 5
  const CV_32FC2: int := 13
  const CV_32FC3: int := 21
  const CV_32FC4: int := 29
  const CV_64FC1: int := 6
  const CV_64FC2: int := 14
  const CV_64FC3: int := 22
  const CV_64FC4: int := 30

  /** The values `Mat::typ` can return (`CV_MAT_TYPE` keeps the low twelve bits of the flags). */
  type MatType = t: int | 0 <= t < 4096

  /** `CV_MAT_DEPTH`. */
  function Depth(typ: MatType): int
  {
    typ % 8
  }

  /** `CV_MAT_CN`, which is what `Mat::channels` returns. */
  function Channels(typ: MatType): nat
  {
    typ / 8 + 1
  }

  /** `CV_ELEM_SIZE1`: the bytes of one channel of one element. */
  function ElemSize1(typ: MatType): nat
  {
    match Depth(typ)
    case 0 => 1
    case 1 => 1
    case 2 => 2
    case 3 => 2
    case 4 => 4
    case 5 => 4
    case 6 => 8
    case _ => 2
  }

  /** `CV_ELEM_SIZE`: the bytes of one element, all channels included. */
  function ElemSize(typ: MatType): nat
  {
    Channels(typ) * ElemSize1(typ)
  }

  /** A `Mat` header: the extents of its dimensions (`mat_size`), its type and whether its
      data is one contiguous block (`is_continuous`). Element values are not modelled. */
  datatype Mat = Mat(sizes: seq<nat>, typ: MatType, continuous: bool)

  /** `Mat::size`: (width, height), i.e. (cols, rows); OpenCV reports -1 for both when the
      Mat has more than two dimensions, and 0 for an empty Mat. */
  function Size(m: Mat): (int, int)
  {
    if |m.sizes| == 2 then (m.sizes[1] as int, m.sizes[0] as int)
    else if |m.sizes| == 0 then (0, 0)
    else (-1, -1)
  }
  /** `Mat::step` of a continuous Mat: dimension `i` steps over the bytes of every element of
      the later dimensions, `step[i] = sizes[i + 1] * ... * elemSize()`. */
  function Steps(m: Mat): (steps: seq<int>)
    ensures |steps| == |m.sizes|
  {
    Scaled(SuffixStrides(m.sizes), ElemSize(m.typ))
  }

  /** The byte, from the start of the data, where `at_nd(pos)` finds channel `k` of an
      element: the element's address `sum pos[i] * step[i]`, then `k` channels of
      `elemSize1()` bytes. */
  function ElementAddress(m: Mat, pos: seq<int>, k: int): int
    requires |pos| == |m.sizes|
  {
    Offset(pos, Steps(m)) + k * ElemSize1(m.typ)
  }
}
