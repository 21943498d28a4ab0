# OpenCV / tch conversions, modelled in Dafny

This project models the conversions between OpenCV `Mat`s and `tch` (libtorch) tensors in
`src/with_opencv_tch.rs` of rust-cv-convert. The conversions it covers are:

- `Mat` to tensor by copy: `TryFromCv<&Mat> for Tensor`.
- `Mat` to tensor by zero-copy: `TryFromCv<Mat> for TensorFromMat`. This builds a tensor view
  that borrows the data of a `Mat` it owns.
- Tensor to `Mat`: `TryFromCv<&Tensor> for Mat`.
- An image tensor to `Mat`: `TryFromCv<&TensorAsImage> for Mat`. The tensor is tagged with a
  `ShapeConvention` (`Whc`, `Hwc`, `Chw`, `Cwh`) that says which axis holds rows, cols and
  channels.

Only headers and addresses are modelled: a `Mat` is its extents, its type code and its
continuity flag, and a tensor is its size and its `Kind`. Element values are not modelled;
instead the model says, for each conversion, at which byte of the shared or copied data each
element is read. The modules are:

- `Tch`: `Kind` with all sixteen variants, `elt_size_in_bytes`, and the tensor header.
- `Cv`: OpenCV depth and type codes, and `CV_MAT_DEPTH`, `CV_MAT_CN`, `CV_ELEM_SIZE1`,
  `CV_ELEM_SIZE` over them. A type code is `CV_MAKETYPE(depth, cn) = depth + 8 * (cn - 1)`.
  Also the `Mat` header, `Mat::size`, the steps of a continuous `Mat` and the byte address
  `at_nd` reads a channel of an element from.
- `Failures`: one error per `bail!`/`ensure!` of the source, and a `Result` that supports `:-`.
- `Layout`: products of shapes and row-major strides. It holds the source's stride scan and
  in-place reverse as an imperative method proved against `SuffixStrides`. It also proves that
  the row-major view reads its buffer one-to-one.
- `Addressing`: the index that reads each element of a row-major buffer, so the view reads the
  buffer onto as well as one-to-one; byte steps; the trailing channel axis.
- `MatExt`: the two 28-arm type tables of `tch_kind_shape_2d` and `tch_kind_shape_nd`, and the
  shapes those functions build.
- `TensorWithConvention`: `ShapeConvention`, `TensorAsImage` and its rank guard.
- `ConventionMatch`: the eight-case match on (size, convention), with what each case means.
- `TensorFromMat`: the view/owner pair as a class whose `Drop` releases the view before the
  owner, each exactly once.
- `Conversions`: the four conversions, the reverse table (kind, channels) to type code, the
  single-channel table, the byte extents read or copied, the element each conversion reads
  at each index, and the round trips of the repository's tests.

## Model

| member | source | states |
|---|---|---|
| MatExt.KindAndChannels | src/with_opencv_tch.rs:60-90 | an accepted code lies in 0..31 and carries 1 to 4 channels, the count `CV_MAT_CN` gives; the kind's scalar is exactly one OpenCV channel wide (`elt_size_in_bytes == CV_ELEM_SIZE1`) and is the kind of the code's depth; every other code is refused as an unsupported Mat type |
| MatExt.KindAndChannelsByEncoding | src/with_opencv_tch.rs:60-90 | the table is OpenCV's encoding: a code is accepted iff it is below 32 and its depth (`typ % 8`) has a tensor kind, and then it yields that kind and `typ / 8 + 1` channels (so `CV_16U` is the one refused depth) |
| MatExt.KindOfType | src/with_opencv_tch.rs:103-133 | the nd table accepts the same codes as the 2-d table, gives the same kind, and refuses the rest with the same error |
| MatExt.KindShape2d | src/with_opencv_tch.rs:58-92 | succeeds iff the type is in the table; the shape is `[width, height, channels]`: for a 2-d Mat the width is `sizes[1]` and the height `sizes[0]`, and the channel count is the one the type encodes |
| MatExt.KindShapeNd | src/with_opencv_tch.rs:94-135 | succeeds iff the type is in the table; the shape is the Mat's extents followed by its channel count, and the kind is the table's |
| MatExt.Shape2dSwapsNd | src/with_opencv_tch.rs:91 | on a 2-d Mat the 2-d shape is the nd shape with its first two axes swapped |
| MatExt.ElementWidths | src/with_opencv_tch.rs:60-90 | for every accepted code, the kind's scalar width times the channel count is OpenCV's element size |
| Layout.RowMajorStrides | src/with_opencv_tch.rs:186-199 | the scan over the reversed shape, collected and then reversed in place, gives exactly the row-major strides `SuffixStrides(shape)` |
| Layout.Reverse | src/with_opencv_tch.rs:197 | `Vec::reverse` in place: the element at `j` is the old element at `n - 1 - j` |
| Layout.StridesRecurrence | src/with_opencv_tch.rs:191-195 | the strides satisfy the scan's recurrence: the last stride is 1 and each stride is the next stride times the next extent |
| Layout.OffsetWithinBuffer | src/with_opencv_tch.rs:202-205 | every in-range index of the shape, read through the row-major strides, lands inside the `product(shape)` elements of the buffer |
| Layout.OffsetInjective | src/with_opencv_tch.rs:202-205 | two in-range indices that land on the same element are the same index, so the view reads each element once |
| Layout.ProductMonotone | src/with_opencv_tch.rs:335 | shrinking extents never grows the element count, which bounds the Mat built from wrapped `i32` extents |
| TensorWithConvention.New | src/with_opencv_tch.rs:34-41 | accepts exactly rank-2 and rank-3 tensors and keeps the tensor and the convention as given; any other rank is refused, naming the size |
| ConventionMatch.Resolve | src/with_opencv_tch.rs:253-262 | succeeds iff the size has rank 2 or 3, otherwise fails naming the shape; the axis change it picks is a permutation of the tensor's axes, and a rank-2 tensor gets one channel |
| ConventionMatch.ResolvedAxesCanonical | src/with_opencv_tch.rs:253-261 | applying the chosen `f_permute` order (or keeping the tensor) gives `[rows, cols]` for rank 2 and `[rows, cols, channels]` for rank 3 |
| ConventionMatch.ResolveFollowsConvention | src/with_opencv_tch.rs:253-261 | every case reads the axes as the convention's name says: rows come from the H axis, cols from the W axis, channels from the C axis or are 1 without one; the tensor is kept as it is exactly when it is already in H, W(, C) order |
| ConventionMatch.ConventionIndexMap | src/with_opencv_tch.rs:253-261 | every index of the canonical image is in range of the stored tensor at the index the convention names, and the chosen permutation (or no change) reads exactly that element |
| ConventionMatch.ResolvedCount | src/with_opencv_tch.rs:253-261 | the match moves axes without changing the element count: `product(size) == rows * cols * channels` |
| Conversions.WrapI32 | src/with_opencv_tch.rs:305-306 | `as i32` gives a value in the `i32` range, is the identity on values already in range, and never grows a non-negative value it keeps non-negative |
| Conversions.TypeOfKindAndChannels | src/with_opencv_tch.rs:267-301 | succeeds iff the kind is one of the seven with an OpenCV depth and the channel count is 1 to 4; the code it gives reads back through the Mat table as the same kind and count; everything else is refused naming both |
| Conversions.TypeTablesInverse | src/with_opencv_tch.rs:267-301 | the other direction of the inverse: every code the Mat table accepts is the code this table builds from its kind and channel count |
| Conversions.SingleChannelType | src/with_opencv_tch.rs:336-345 | succeeds iff the kind has an OpenCV depth; the code is the one-channel row of the full table and reads back as (kind, 1); other kinds are refused naming the kind |
| Conversions.MatOfTensorAsImage | src/with_opencv_tch.rs:247-316 | fails with the shape error whenever the convention match fails; after a match it succeeds iff the kind is one of the seven, the channel count is 1 to 4 and `rows as i32` and `cols as i32` are non-negative; an unsupported kind or channel count is refused naming both, a negative wrapped extent with OpenCV's size error; on success the Mat is continuous, its sizes are `[rows as i32, cols as i32]`, and its type reads back as the tensor's kind with the match's channel count |
| Conversions.MatOfTensor | src/with_opencv_tch.rs:333-349 | succeeds iff the kind is supported and every extent stays non-negative after `as i32`; an unsupported kind is refused naming it, a negative wrapped extent with OpenCV's size error; the Mat is continuous, has the tensor's rank and a one-channel type of the tensor's kind |
| Conversions.TensorOfMat | src/with_opencv_tch.rs:217-230 | succeeds iff the Mat is continuous and its type is in the table; a non-continuous Mat is refused first, and a continuous one of another type as an unsupported Mat type; the tensor has the Mat's nd kind and shape, and the bytes copied are `product(shape) * elt_size_in_bytes` |
| Conversions.TensorFromMatOf | src/with_opencv_tch.rs:182-211 | succeeds iff the Mat is continuous and its type is in the table, with the same errors as the copy path; on success a fresh live pair owns the Mat and its view has the Mat's nd shape and the row-major strides |
| Conversions.CopyLengthIsMatData | src/with_opencv_tch.rs:223-224 | the slice the copy path reads is exactly the Mat's data, `total() * elemSize()` bytes |
| Conversions.ViewReadsWithinOwner | src/with_opencv_tch.rs:202-204 | every in-range element of the zero-copy view lies, byte for byte, inside the data of the Mat it borrows |
| Conversions.MatOfTensorReadsWithinTensor | src/with_opencv_tch.rs:334-347 | the n-d Mat over the tensor's data never reads past it; when every extent fits in an `i32` the Mat has the tensor's size and covers its data exactly |
| Conversions.MatOfTensorAsImageReadsWithinTensor | src/with_opencv_tch.rs:264-313 | the rows x cols Mat over the contiguous permuted tensor never reads past the tensor's data, whatever `as i32` did to rows and cols |
| Conversions.MatOfTensorAsImageCoversTensor | src/with_opencv_tch.rs:264-313 | when rows and cols fit in an `i32`, the Mat is exactly rows x cols and covers the tensor's data byte for byte |
| Conversions.TensorRoundTrip | src/with_opencv_tch.rs:369-425 | tensor to Mat to tensor by copy gives back the kind and the size plus a trailing channel axis of 1, which has the same element count, and copies the tensor's own bytes |
| Conversions.ImageRoundTripShape | src/with_opencv_tch.rs:427-464 | an image tensor to Mat and back gives the kind and `[rows, cols, channels]`, which for rank 3 is the tensor with the match's axis change applied |
| Conversions.ChwRoundTripShape | src/with_opencv_tch.rs:427-488 | a `[c, h, w]` tensor under `Chw` becomes an h x w Mat with c channels that reads back as `[h, w, c]`; permuting by `[2, 0, 1]` restores `[c, h, w]`; the permutation reads index `(row, col, k)` from the stored index `(k, row, col)` |
| Conversions.NdShapeReadsMatElement | src/with_opencv_tch.rs:94-135 | channel `k` of Mat element `pos` sits at the byte where the row-major tensor of shape `sizes ++ [channels]` and the table's kind has its element `pos ++ [k]` |
| Conversions.ViewReadsMatElement | src/with_opencv_tch.rs:185-205 | the zero-copy view's index `pos ++ [k]` is in range and reads exactly channel `k` of Mat element `pos` |
| Conversions.CopyReadsMatElement | src/with_opencv_tch.rs:219-226 | the copied tensor, row-major over the copied slice, holds channel `k` of Mat element `pos` at index `pos ++ [k]` |
| Conversions.TensorRoundTripElements | src/with_opencv_tch.rs:369-425 | the element-wise comparisons of the test: the n-d Mat over a tensor has the tensor's element `idx` at its own element `idx` (`at_nd`), and the tensor copied back has it at `idx ++ [0]` |
| Conversions.ImageMatReadsCanonical | src/with_opencv_tch.rs:253-313 | channel `k` of pixel `(row, col)` of the image Mat is element `[row, col, k]` of the contiguous tensor in the match's canonical order (`[row, col]` of `[rows, cols]` for a rank-2 tensor, whose one channel is `k = 0`) |
| Conversions.ChwRoundTripElements | src/with_opencv_tch.rs:440-447 | channel `k` of pixel `(row, col)` of the Mat made from a `[c, h, w]` tensor under `Chw` is element `[row, col, k]` of the contiguous `[h, w, c]` tensor, which the permutation reads from the stored element `[k, row, col]`, an in-range index |
| Addressing.IndexOfOffset | src/with_opencv_tch.rs:202-205 | every element of the buffer is read by some in-range index of the row-major view, so with OffsetInjective the view reads the buffer one-to-one and onto |
| Addressing.TrailingAxisOffset | src/with_opencv_tch.rs:95-101 | appending the channel axis to the shape turns the offset of `pos` into `offset * channels + k` for index `pos ++ [k]` |
| TensorFromMat.TensorFromMat.constructor | src/with_opencv_tch.rs:207-210 | the pair starts with both halves live, nothing released, and the view reading all of the owner |
| TensorFromMat.TensorFromMat.Tensor | src/with_opencv_tch.rs:150-152 | the borrowed view is returned only while the pair is live; its size is the owner's extents followed by its channel count |
| TensorFromMat.TensorFromMat.ReleaseView | src/with_opencv_tch.rs:158 | releasing the view leaves the owner live and records the view's release |
| TensorFromMat.TensorFromMat.ReleaseOwner | src/with_opencv_tch.rs:159 | the owner is released only after the view and then recorded |
| TensorFromMat.TensorFromMat.Drop | src/with_opencv_tch.rs:156-161 | dropping the pair releases the view and then the owner, each exactly once, and keeps the pair's invariant |

## Left out

- The unsafe pointer work is not modelled as memory: `ptr(0)`, `data_ptr`, `slice::from_raw_parts`, `f_of_blob`, `f_of_data_size` and `new_*_with_data`. What the model keeps is where each element is read: the byte-extent lemmas and the element-address lemmas (`ViewReadsMatElement`, `CopyReadsMatElement`, `TensorRoundTripElements`, `ImageMatReadsCanonical`). Lifetimes and aliasing of the buffers are not modelled.
- Conversions.MatOfTensor: the Mat that `new_nd_with_data` builds at line 347 shares the data of the local contiguous CPU tensor from line 334 without copying it (unlike the `try_clone()` at line 312), and that tensor is dropped when the function returns at line 349. When `f_contiguous` or `f_to_device` had to allocate (a non-contiguous or non-CPU input), the returned Mat therefore points at freed memory. The model treats the Mat as reading the tensor's data and does not capture this; it is read from the text, not executed.
- Element values are not modelled. The repository tests compare values; the model instead proves that each side reads the same byte of the same data at the compared indices (`TensorRoundTripElements` for lines 399-421, `ChwRoundTripElements` and `ViewReadsMatElement` for lines 440-447 and 480-483). The tests' random data and 1000-round loops are dropped.
- The tensor runtime operations are modelled only by their effect on the size: `f_permute`, `shallow_clone`, `f_contiguous`, `f_to_device`, `f_kind`, `f_view` and `try_clone`.
- Failures of foreign calls are not modelled: `typ()?`, `size()?`, `channels()?`, `is_continuous()?`, `ptr(0)?`, `f_of_blob` and the other `f_*` calls. The only OpenCV failure kept is its refusal of a negative extent (`NegativeMatSize`).
- Devices are not modelled; every tensor is taken to be on the CPU after `f_to_device`.
- `Deref`, `DerefMut` and `TensorAsImage::into_inner` are left out. They hand out the inner value and compute nothing.
- The `TryFromCv` impls that take their argument by value are left out. They forward to the by-reference impls (lines 233-239, 319-328, 352-358).
- OpenCV's constants (depth and type codes, `CV_ELEM_SIZE1`) and tch's `elt_size_in_bytes` come from those libraries' headers, which are not part of this model. They are written out from the libraries' published encodings.
- OpenCV stores 0-d and 1-d sizes as 2-d Mats, and it limits Mats to 32 dimensions. Neither is modelled: a `Mat` here keeps any rank.
- Conversions.TensorRoundTrip: stated only for tensors of rank 2 and up, because OpenCV reshapes 0-d and 1-d sizes.
- Extents, products and strides are unbounded integers, so overflow of the source's machine arithmetic is not modelled. The `i64` products and strides overflow past 2^63 elements. The copy path's `slice_size` at line 224, `product as usize * elt_size_in_bytes`, overflows a 64-bit `usize` past 2^64 bytes, which for an 8-byte kind is 2^61 elements. The `as i32` casts are modelled (`WrapI32`).
