/** The `TryFromCv` conversions between `Mat` and `Tensor`. */
module Conversions {
  import opened Tch
  import opened Cv
  import opened Failures
  import opened Layout
  import opened Addressing
  import opened MatExt
  import opened TensorWithConvention
  import opened ConventionMatch
  import opened TensorFromMat

  // ---------------------------------------------------------------------------
  // Integer casts and buffer sizes
  // ---------------------------------------------------------------------------

  const I32_BOUND: int := 0x8000_0000

  /** Rust's `x as i32` on an `i64`: keeps the low 32 bits, two's complement. */
  function WrapI32(x: int): (r: int)
    ensures -I32_BOUND <= r < I32_BOUND
    ensures -I32_BOUND <= x < I32_BOUND ==> r == x
    ensures 0 <= x && 0 <= r ==> r <= x
  {
    (x + I32_BOUND) % (2 * I32_BOUND) - I32_BOUND
  }

  /** The bytes of a `Mat`'s data: `total() * elemSize()`. */
  function MatByteLength(m: Mat): int
  {
    Product(m.sizes) * ElemSize(m.typ)
  }

  /** The bytes of a contiguous tensor's data. */
  function TensorByteLength(t: Tensor): int
  {
    Product(t.size) * EltSizeInBytes(t.kind)
  }

  // ---------------------------------------------------------------------------
  // Kind and channels to Mat type
  // ---------------------------------------------------------------------------

  /** The seven kinds that have an OpenCV depth. */
  predicate SupportedKind(kind: Kind)
  {
    kind in {Uint8, Int8, Int16, Half, Int, Float, Double}
  }

  /** The 28-arm match of the `TensorAsImage` conversion: a kind and a channel count to a
      `Mat` type code. It is the inverse of `KindAndChannels`: the code it gives is read back
      as the same kind and count, and it refuses everything else. */
  function TypeOfKindAndChannels(kind: Kind, channels: int): (r: Result<int>)
    ensures r.Ok? <==> SupportedKind(kind) && 1 <= channels <= 4
    ensures r.Ok? ==> KindAndChannels(r.value) == Ok((kind, channels))
    ensures r.Err? ==> r.error == UnsupportedKindAndChannels(kind, channels)
  {
    match (kind, channels)
    case (Uint8, 1) => Ok(CV_8UC1)
    case (Uint8, 2) => Ok(CV_8UC2)
    case (Uint8, 3) => Ok(CV_8UC3)
    case (Uint8, 4) => Ok(CV_8UC4)
    case (Int8, 1) => Ok(CV_8SC1)
    case (Int8, 2) => Ok(CV_8SC2)
    case (Int8, 3) => Ok(CV_8SC3)
    case (Int8, 4) => Ok(CV_8SC4)
    case (Int16, 1) => Ok(CV_16SC1)
    case (Int16, 2) => Ok(CV_16SC2)
    case (Int16, 3) => Ok(CV_16SC3)
    case (Int16, 4) => Ok(CV_16SC4)
    case (Half, 1) => Ok(CV_16FC1)
    case (Half, 2) => Ok(CV_16FC2)
    case (Half, 3) => Ok(CV_16FC3)
    case (Half, 4) => Ok(CV_16FC4)
    case (Int, 1) => Ok(CV_32SC1)
    case (Int, 2) => Ok(CV_32SC2)
    case (Int, 3) => Ok(CV_32SC3)
    case (Int, 4) => Ok(CV_32SC4)
    case (Float, 1) => Ok(CV_32FC1)
    case (Float, 2) => Ok(CV_32FC2)
    case (Float, 3) => Ok(CV_32FC3)
    case (Float, 4) => Ok(CV_32FC4)
    case (Double, 1) => Ok(CV_64FC1)
    case (Double, 2) => Ok(CV_64FC2)
    case (Double, 3) => Ok(CV_64FC3)
    case (Double, 4) => Ok(CV_64FC4)
    case _ => Err(UnsupportedKindAndChannels(kind, channels))
  }

  /** The other direction of the inverse: every code `KindAndChannels` accepts is the code
      `TypeOfKindAndChannels` builds from its kind and channel count. */
  lemma TypeTablesInverse(typ: int)
    requires KindAndChannels(typ).Ok?
    ensures TypeOfKindAndChannels(KindAndChannels(typ).value.0, KindAndChannels(typ).value.1) == Ok(typ)
  {
    var (kind, channels) := KindAndChannels(typ).value;
    var back := TypeOfKindAndChannels(kind, channels);
    assert back.Ok?;
    assert KindAndChannels(back.value) == Ok((kind, channels));
    KindAndChannelsByEncoding(typ);
    KindAndChannelsByEncoding(back.value);
    DepthKindInjective(typ % 8, back.value % 8);
  }

  lemma DepthKindInjective(d1: int, d2: int)
    requires DepthKind(d1).Some? && DepthKind(d1) == DepthKind(d2)
    ensures d1 == d2
  {
  }

  /** The single-channel match of the plain `Tensor` conversion: the seven supported kinds
      map to their one-channel code, which is the 1-channel row of the full table; every other
      kind is refused. */
  function SingleChannelType(kind: Kind): (r: Result<int>)
    ensures r.Ok? <==> SupportedKind(kind)
    ensures r.Ok? ==> r == TypeOfKindAndChannels(kind, 1)
    ensures r.Ok? ==> KindAndChannels(r.value) == Ok((kind, 1))
    ensures r.Err? ==> r.error == UnsupportedTensorKind(kind)
  {
    match kind
    case Uint8 => Ok(CV_8UC1)
    case Int8 => Ok(CV_8SC1)
    case Int16 => Ok(CV_16SC1)
    case Half => Ok(CV_16FC1)
    case Int => Ok(CV_32SC1)
    case Float => Ok(CV_32FC1)
    case Double => Ok(CV_64FC1)
    case _ => Err(UnsupportedTensorKind(kind))
  }

  // ---------------------------------------------------------------------------
  // Tensor to Mat
  // ---------------------------------------------------------------------------

  /** `TryFromCv<&TensorAsImage<T>> for Mat`: resolve the convention, make the tensor
      contiguous on the CPU, map (kind, channels) to a type and copy a rows x cols Mat. */
  function MatOfTensorAsImage(from: TensorAsImage): (r: Result<Mat>)
    ensures r.Ok? ==> Resolve(from.tensor.size, from.convention).Ok?
    ensures r.Ok? ==> r.value.continuous
    ensures r.Ok? ==> var resolved := Resolve(from.tensor.size, from.convention).value;
      r.value.sizes == [WrapI32(resolved.rows), WrapI32(resolved.cols)]
    ensures r.Ok? ==>
      KindAndChannels(r.value.typ) ==
        Ok((from.tensor.kind, Resolve(from.tensor.size, from.convention).value.channels))
    ensures Resolve(from.tensor.size, from.convention).Err? ==>
      r == Err(UnsupportedTensorShape(from.tensor.size))
    ensures var resolved := Resolve(from.tensor.size, from.convention);
      resolved.Ok? ==>
        (r.Ok? <==>
          && SupportedKind(from.tensor.kind) && 1 <= resolved.value.channels <= 4
          && WrapI32(resolved.value.rows) >= 0 && WrapI32(resolved.value.cols) >= 0)
    ensures var resolved := Resolve(from.tensor.size, from.convention);
      resolved.Ok? && !(SupportedKind(from.tensor.kind) && 1 <= resolved.value.channels <= 4) ==>
        r == Err(UnsupportedKindAndChannels(from.tensor.kind, resolved.value.channels))
    ensures var resolved := Resolve(from.tensor.size, from.convention);
      resolved.Ok? && SupportedKind(from.tensor.kind) && 1 <= resolved.value.channels <= 4 ==>
        var rows, cols := WrapI32(resolved.value.rows), WrapI32(resolved.value.cols);
        rows < 0 || cols < 0 ==> r == Err(NegativeMatSize([rows, cols]))
  {
    var resolved :- Resolve(from.tensor.size, from.convention);
    var typ :- TypeOfKindAndChannels(from.tensor.kind, resolved.channels);
    var rows, cols := WrapI32(resolved.rows), WrapI32(resolved.cols);
    if rows < 0 || cols < 0 then Err(NegativeMatSize([rows, cols]))
    else Ok(Mat([rows, cols], typ, true))
  }

  /** Casting every extent with `as i32`. */
  function SizesI32(size: seq<nat>): (r: seq<int>)
    ensures |r| == |size|
  {
    seq(|size|, i requires 0 <= i < |size| => WrapI32(size[i]))
  }

  predicate NonNegative(s: seq<int>)
  {
    forall i :: 0 <= i < |s| ==> s[i] >= 0
  }

  /** `TryFromCv<&Tensor> for Mat`: an n-d Mat of the tensor's size, one channel of the
      tensor's kind per element. */
  function MatOfTensor(from: Tensor): (r: Result<Mat>)
    ensures r.Ok? <==> SupportedKind(from.kind) && NonNegative(SizesI32(from.size))
    ensures !SupportedKind(from.kind) ==> r == Err(UnsupportedTensorKind(from.kind))
    ensures SupportedKind(from.kind) && !NonNegative(SizesI32(from.size)) ==>
      r == Err(NegativeMatSize(SizesI32(from.size)))
    ensures r.Ok? ==> r.value.continuous && |r.value.sizes| == |from.size|
    ensures r.Ok? ==> KindAndChannels(r.value.typ) == Ok((from.kind, 1))
  {
    var size := SizesI32(from.size);
    var typ :- SingleChannelType(from.kind);
    if !NonNegative(size) then Err(NegativeMatSize(size))
    else Ok(Mat(seq(|size|, i requires 0 <= i < |size| => size[i] as nat), typ, true))
  }

  // ---------------------------------------------------------------------------
  // Mat to Tensor
  // ---------------------------------------------------------------------------

  /** `TryFromCv<&Mat> for Tensor`: the copy path. The result is the tensor and the number of
      bytes copied out of the Mat's data (`slice_size`). */
  function TensorOfMat(from: Mat): (r: Result<(Tensor, int)>)
    ensures r.Ok? <==> from.continuous && KindAndChannels(from.typ).Ok?
    ensures !from.continuous ==> r == Err(NonContinuousMat)
    ensures from.continuous && r.Err? ==> r.error == UnsupportedMatType(from.typ)
    ensures r.Ok? ==> KindShapeNd(from) == Ok((r.value.0.kind, r.value.0.size))
    ensures r.Ok? ==> r.value.1 == TensorByteLength(r.value.0)
  {
    if !from.continuous then Err(NonContinuousMat)
    else
      var (kind, shape) :- KindShapeNd(from);
      var sliceSize := Product(shape) * EltSizeInBytes(kind);
      Ok((Tensor(shape, kind), sliceSize))
  }

  /** `TryFromCv<Mat> for TensorFromMat`: the zero-copy path. A non-continuous Mat is refused
      before anything is built; otherwise the Mat is moved into a pair whose view reads its
      data with the Mat's n-d shape and row-major strides. */
  method TensorFromMatOf(from: Mat) returns (r: Result<TensorFromMat>)
    ensures r.Ok? <==> from.continuous && KindAndChannels(from.typ).Ok?
    ensures !from.continuous ==> r == Err(NonContinuousMat)
    ensures from.continuous && r.Err? ==> r.error == UnsupportedMatType(from.typ)
    ensures r.Ok? ==> fresh(r.value) && r.value.Valid() && r.value.viewLive
    ensures r.Ok? ==> r.value.mat == from && r.value.released == []
  {
    if !from.continuous {
      return Err(NonContinuousMat);
    }
    var nd := KindShapeNd(from);
    if nd.Err? {
      return Err(nd.error);
    }
    var (kind, shape) := nd.value;
    var strides := RowMajorStrides(shape);
    var pair := new TensorFromMat(Tensor(shape, kind), strides, from);
    return Ok(pair);
  }

  // ---------------------------------------------------------------------------
  // Buffer extents
  // ---------------------------------------------------------------------------

  /** The copy path copies exactly the Mat's data: `product(shape) * elt_size_in_bytes` is
      `total() * elemSize()` of the source Mat. */
  lemma CopyLengthIsMatData(from: Mat)
    requires TensorOfMat(from).Ok?
    ensures TensorOfMat(from).value.1 == MatByteLength(from)
  {
    var (kind, channels) := KindAndChannels(from.typ).value;
    ElementWidths(from.typ);
    ProductAppend(from.sizes, channels);
    BytesExact(Product(from.sizes), channels, EltSizeInBytes(kind));
  }

  /** The zero-copy view never reads outside the Mat it borrows from: every in-range index
      lands on an element whose bytes lie inside the Mat's data. */
  lemma ViewReadsWithinOwner(tensor: Tensor, strides: seq<int>, mat: Mat, idx: seq<int>)
    requires ViewsAllOf(tensor, strides, mat)
    requires InBounds(idx, tensor.size)
    ensures 0 <= Offset(idx, strides) * EltSizeInBytes(tensor.kind)
    ensures (Offset(idx, strides) + 1) * EltSizeInBytes(tensor.kind) <= MatByteLength(mat)
  {
    var (kind, channels) := KindAndChannels(mat.typ).value;
    assert tensor.size == mat.sizes + [channels];
    OffsetWithinBuffer(tensor.size, idx);
    ElementWidths(mat.typ);
    ProductAppend(mat.sizes, channels);
    BytesExact(Product(mat.sizes), channels, EltSizeInBytes(kind));
    MulMonotone(Offset(idx, strides) + 1, Product(tensor.size), EltSizeInBytes(kind));
  }

  /** The n-d Mat built over a tensor's data never reads past it; when every extent fits in
      an `i32` it covers the data exactly. */
  lemma MatOfTensorReadsWithinTensor(from: Tensor)
    requires MatOfTensor(from).Ok?
    ensures MatByteLength(MatOfTensor(from).value) <= TensorByteLength(from)
    ensures (forall i :: 0 <= i < |from.size| ==> from.size[i] < I32_BOUND) ==>
      MatOfTensor(from).value.sizes == from.size &&
      MatByteLength(MatOfTensor(from).value) == TensorByteLength(from)
  {
    var m := MatOfTensor(from).value;
    assert ElemSize(m.typ) == EltSizeInBytes(from.kind);
    ProductMonotone(m.sizes, from.size);
    MulMonotone(Product(m.sizes), Product(from.size), EltSizeInBytes(from.kind));
    if forall i :: 0 <= i < |from.size| ==> from.size[i] < I32_BOUND {
      assert m.sizes == from.size;
    }
  }

  /** The rows x cols Mat built over the contiguous permuted tensor never reads past the
      tensor's data. */
  lemma MatOfTensorAsImageReadsWithinTensor(from: TensorAsImage)
    requires MatOfTensorAsImage(from).Ok?
    ensures MatByteLength(MatOfTensorAsImage(from).value) <= TensorByteLength(from.tensor)
  {
    var m := MatOfTensorAsImage(from).value;
    var r := Resolve(from.tensor.size, from.convention).value;
    var elt := EltSizeInBytes(from.tensor.kind);
    var rows, cols := m.sizes[0], m.sizes[1];
    ElementWidths(m.typ);
    ProductOfThree(rows, cols, 0);
    assert m.sizes == [rows, cols];
    ResolvedCount(from.tensor.size, from.convention);
    BytesBound(rows, cols, r.rows, r.cols, r.channels, elt);
  }

  /** When rows and cols fit in an `i32` the Mat is exactly rows x cols and covers the
      tensor's data byte for byte. */
  lemma MatOfTensorAsImageCoversTensor(from: TensorAsImage)
    requires MatOfTensorAsImage(from).Ok?
    requires var r := Resolve(from.tensor.size, from.convention).value;
      r.rows < I32_BOUND && r.cols < I32_BOUND
    ensures var r := Resolve(from.tensor.size, from.convention).value;
      MatOfTensorAsImage(from).value.sizes == [r.rows, r.cols]
    ensures MatByteLength(MatOfTensorAsImage(from).value) == TensorByteLength(from.tensor)
  {
    var m := MatOfTensorAsImage(from).value;
    var r := Resolve(from.tensor.size, from.convention).value;
    assert WrapI32(r.rows) == r.rows;
    assert WrapI32(r.cols) == r.cols;
    assert m.sizes == [r.rows, r.cols];
    ElementWidths(m.typ);
    ProductOfThree(r.rows, r.cols, 0);
    ResolvedCount(from.tensor.size, from.convention);
    BytesExact(r.rows * r.cols, r.channels, EltSizeInBytes(from.tensor.kind));
  }

  lemma BytesExact(cells: int, channels: int, elt: int)
    ensures cells * (elt * channels) == cells * channels * elt
  {
  }

  lemma BytesBound(rows: int, cols: int, allRows: int, allCols: int, channels: int, elt: int)
    requires 0 <= rows <= allRows && 0 <= cols <= allCols && 0 <= channels && 0 <= elt
    ensures rows * cols * (elt * channels) <= allRows * allCols * channels * elt
  {
    MulMonotone(rows, allRows, cols);
    MulMonotone(cols, allCols, allRows);
    MulMonotone(rows * cols, allRows * allCols, elt * channels);
    assert allRows * allCols * (elt * channels) == allRows * allCols * channels * elt;
  }

  // ---------------------------------------------------------------------------
  // Element addresses
  // ---------------------------------------------------------------------------

  /** Channel `k` of element `pos` of a Mat in the table is, byte for byte, element
      `pos ++ [k]` of the row-major tensor of shape `sizes ++ [channels]` and the table's
      kind: the layout the zero-copy view and the copy both read the Mat's data with. */
  lemma NdShapeReadsMatElement(m: Mat, pos: seq<int>, k: int)
    requires KindAndChannels(m.typ).Ok?
    requires InBounds(pos, m.sizes) && 0 <= k < Channels(m.typ)
    ensures var (kind, channels) := KindAndChannels(m.typ).value;
      Offset(pos + [k], SuffixStrides(m.sizes + [channels])) * EltSizeInBytes(kind) ==
        ElementAddress(m, pos, k)
  {
    var (kind, channels) := KindAndChannels(m.typ).value;
    TrailingAxisOffset(m.sizes, pos, channels, k);
    OffsetScaled(pos, SuffixStrides(m.sizes), ElemSize(m.typ));
    ElementBytes(Offset(pos, SuffixStrides(m.sizes)), channels, k, ElemSize1(m.typ));
  }

  lemma ElementBytes(o: int, channels: int, k: int, e1: int)
    ensures (o * channels + k) * e1 == o * (channels * e1) + k * e1
  {
  }

  /** The zero-copy view reads the Mat element for element: view index `pos ++ [k]` is in
      range and is channel `k` of Mat element `pos`. */
  lemma ViewReadsMatElement(tensor: Tensor, strides: seq<int>, mat: Mat, pos: seq<int>, k: int)
    requires ViewsAllOf(tensor, strides, mat)
    requires InBounds(pos, mat.sizes) && 0 <= k < Channels(mat.typ)
    ensures InBounds(pos + [k], tensor.size)
    ensures Offset(pos + [k], strides) * EltSizeInBytes(tensor.kind) == ElementAddress(mat, pos, k)
  {
    NdShapeReadsMatElement(mat, pos, k);
  }

  /** The copy reads the Mat element for element: the copied tensor, laid out row-major, holds
      channel `k` of Mat element `pos` at index `pos ++ [k]`. */
  lemma CopyReadsMatElement(from: Mat, pos: seq<int>, k: int)
    requires TensorOfMat(from).Ok?
    requires InBounds(pos, from.sizes) && 0 <= k < Channels(from.typ)
    ensures var t := TensorOfMat(from).value.0;
      && InBounds(pos + [k], t.size)
      && Offset(pos + [k], SuffixStrides(t.size)) * EltSizeInBytes(t.kind) == ElementAddress(from, pos, k)
  {
    NdShapeReadsMatElement(from, pos, k);
  }

  /** The `tensor_mat_conv` test, element by element: the n-d Mat over a tensor holds the
      tensor's element `idx` at its own element `idx`, and the tensor copied back from the
      Mat holds it at `idx ++ [0]`. */
  lemma TensorRoundTripElements(t: Tensor, idx: seq<int>)
    requires SupportedKind(t.kind) && |t.size| >= 2
    requires forall i :: 0 <= i < |t.size| ==> t.size[i] < I32_BOUND
    requires InBounds(idx, t.size)
    ensures MatOfTensor(t).Ok? && |MatOfTensor(t).value.sizes| == |idx|
    ensures TensorOfMat(MatOfTensor(t).value).Ok?
    ensures ElementAddress(MatOfTensor(t).value, idx, 0) ==
      Offset(idx, SuffixStrides(t.size)) * EltSizeInBytes(t.kind)
    ensures var back := TensorOfMat(MatOfTensor(t).value).value.0;
      && InBounds(idx + [0], back.size)
      && Offset(idx + [0], SuffixStrides(back.size)) * EltSizeInBytes(back.kind) ==
        Offset(idx, SuffixStrides(t.size)) * EltSizeInBytes(t.kind)
  {
    TensorRoundTrip(t);
    var m := MatOfTensor(t).value;
    assert m.sizes == t.size;
    assert ElemSize(m.typ) == EltSizeInBytes(t.kind) && ElemSize1(m.typ) == EltSizeInBytes(t.kind);
    OffsetScaled(idx, SuffixStrides(t.size), EltSizeInBytes(t.kind));
    CopyReadsMatElement(m, idx, 0);
  }

  /** The rows x cols Mat reads the contiguous tensor in the match's canonical order: channel
      `k` of pixel `(row, col)` is element `[row, col, k]` of `[rows, cols, channels]`, or, for
      a rank-2 tensor (one channel), element `[row, col]` of `[rows, cols]`. */
  lemma ImageMatReadsCanonical(from: TensorAsImage, row: int, col: int, k: int)
    requires MatOfTensorAsImage(from).Ok?
    requires var r := Resolve(from.tensor.size, from.convention).value;
      && r.rows < I32_BOUND && r.cols < I32_BOUND
      && 0 <= row < r.rows && 0 <= col < r.cols && 0 <= k < r.channels
    ensures |from.tensor.size| == 3 ==>
      ElementAddress(MatOfTensorAsImage(from).value, [row, col], k) ==
        Offset([row, col, k], SuffixStrides(CanonicalSize(from.tensor.size, from.convention))) *
          EltSizeInBytes(from.tensor.kind)
    ensures |from.tensor.size| == 2 ==>
      && k == 0
      && ElementAddress(MatOfTensorAsImage(from).value, [row, col], k) ==
        Offset([row, col], SuffixStrides(CanonicalSize(from.tensor.size, from.convention))) *
          EltSizeInBytes(from.tensor.kind)
  {
    var r := Resolve(from.tensor.size, from.convention).value;
    var m := MatOfTensorAsImage(from).value;
    MatOfTensorAsImageCoversTensor(from);
    NdShapeReadsMatElement(m, [row, col], k);
    assert [row, col] + [k] == [row, col, k];
    assert m.sizes + [r.channels] == [r.rows, r.cols, r.channels];
    if |from.tensor.size| == 2 {
      TrailingAxisOffset([r.rows, r.cols], [row, col], 1, 0);
      assert [r.rows, r.cols] + [1] == [r.rows, r.cols, 1];
    }
  }

  /** The `tensor_as_image_and_mat_conv` and `tensor_from_mat_conv` tests, element by element:
      channel `k` of pixel `(row, col)` of the Mat made from a `[c, h, w]` tensor under `Chw`
      is element `[row, col, k]` of the contiguous `[h, w, c]` tensor, which the permutation
      reads from the stored element `[k, row, col]`; the zero-copy view of that Mat reads the
      same byte at the same index (ViewReadsMatElement). */
  lemma ChwRoundTripElements(c: nat, h: nat, w: nat, kind: Kind, row: int, col: int, k: int)
    requires SupportedKind(kind) && 1 <= c <= 4 && h < I32_BOUND && w < I32_BOUND
    requires 0 <= row < h && 0 <= col < w && 0 <= k < c
    ensures New(Tensor([c, h, w], kind), Chw).Ok?
    ensures MatOfTensorAsImage(New(Tensor([c, h, w], kind), Chw).value).Ok?
    ensures var m := MatOfTensorAsImage(New(Tensor([c, h, w], kind), Chw).value).value;
      && |m.sizes| == 2
      && ElementAddress(m, [row, col], k) ==
        Offset([row, col, k], SuffixStrides([h, w, c])) * EltSizeInBytes(kind)
    ensures InBounds([k, row, col], [c, h, w]) && SourceIndex(Chw, [row, col, k]) == [k, row, col]
  {
    var x := New(Tensor([c, h, w], kind), Chw).value;
    assert Resolve([c, h, w], Chw) == Ok(Resolved(Permute([1, 2, 0]), c, h, w));
    assert WrapI32(h) == h && WrapI32(w) == w;
    assert TypeOfKindAndChannels(kind, c).Ok?;
    assert CanonicalSize([c, h, w], Chw) == [h, w, c];
    ImageMatReadsCanonical(x, row, col, k);
    ConventionIndexMap([c, h, w], Chw, [row, col, k]);
  }

  // ---------------------------------------------------------------------------
  // Round trips
  // ---------------------------------------------------------------------------

  /** Tensor to Mat and back by copy (the `tensor_mat_conv` test): the tensor comes back with
      its kind, its size plus a trailing channel axis of 1 (so `f_view(size)` restores the
      size), and the bytes copied are the tensor's own. OpenCV stores 0-d and 1-d sizes as
      2-d Mats, so the round trip is stated for rank 2 and up. */
  lemma TensorRoundTrip(t: Tensor)
    requires SupportedKind(t.kind) && |t.size| >= 2
    requires forall i :: 0 <= i < |t.size| ==> t.size[i] < I32_BOUND
    ensures MatOfTensor(t).Ok?
    ensures TensorOfMat(MatOfTensor(t).value) == Ok((Tensor(t.size + [1], t.kind), TensorByteLength(t)))
    ensures Product(t.size + [1]) == Product(t.size)
  {
    assert NonNegative(SizesI32(t.size));
    MatOfTensorReadsWithinTensor(t);
    var m := MatOfTensor(t).value;
    ProductAppend(t.size, 1);
    assert KindShapeNd(m) == Ok((t.kind, t.size + [1]));
  }

  /** Tensor to Mat under a convention, then back by zero-copy or copy: the tensor comes back
      as `[rows, cols, channels]` in the resolver's canonical order, with the original kind. */
  lemma ImageRoundTripShape(from: TensorAsImage)
    requires MatOfTensorAsImage(from).Ok?
    requires var r := Resolve(from.tensor.size, from.convention).value;
      r.rows < I32_BOUND && r.cols < I32_BOUND
    ensures var r := Resolve(from.tensor.size, from.convention).value;
      KindShapeNd(MatOfTensorAsImage(from).value) ==
        Ok((from.tensor.kind, [r.rows, r.cols, r.channels]))
    ensures var r := Resolve(from.tensor.size, from.convention).value;
      |from.tensor.size| == 3 ==>
        [r.rows, r.cols, r.channels] == ApplyAxes(from.tensor.size, r.axes)
  {
    MatOfTensorAsImageCoversTensor(from);
    ResolvedAxesCanonical(from.tensor.size, from.convention);
    var shape := KindShapeNd(MatOfTensorAsImage(from).value).value.1;
    assert shape == [shape[0], shape[1], shape[2]];
  }

  /** The `tensor_as_image_and_mat_conv` and `tensor_from_mat_conv` tests: a `[c, h, w]`
      tensor under `Chw` becomes an h x w Mat with c channels, which reads back as
      `[h, w, c]`; permuting that by `[2, 0, 1]` restores `[c, h, w]`. */
  lemma ChwRoundTripShape(c: nat, h: nat, w: nat, kind: Kind)
    requires SupportedKind(kind) && 1 <= c <= 4 && h < I32_BOUND && w < I32_BOUND
    ensures New(Tensor([c, h, w], kind), Chw).Ok?
    ensures var m := MatOfTensorAsImage(New(Tensor([c, h, w], kind), Chw).value);
      && m.Ok? && m.value.sizes == [h, w] && Channels(m.value.typ) == c
      && KindShapeNd(m.value) == Ok((kind, [h, w, c]))
      && PermuteSize([h, w, c], [2, 0, 1]) == [c, h, w]
    ensures forall row, col, k :: SourceIndex(Chw, [row, col, k]) == [k, row, col]
  {
    var x := New(Tensor([c, h, w], kind), Chw).value;
    assert Resolve([c, h, w], Chw) == Ok(Resolved(Permute([1, 2, 0]), c, h, w));
    assert WrapI32(h) == h && WrapI32(w) == w;
    assert TypeOfKindAndChannels(kind, c).Ok?;
    var m := MatOfTensorAsImage(x).value;
    assert m.sizes == [h, w];
    assert m.sizes + [c] == [h, w, c];
    assert PermuteSize([h, w, c], [2, 0, 1]) == [c, h, w];
    forall row, col, k
      ensures SourceIndex(Chw, [row, col, k]) == [k, row, col]
    {
      assert AxesOfRank(Chw, 3) == [C, H, W];
    }
  }
}
