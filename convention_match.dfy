/** The convention match of the `TensorAsImage` conversion: which axis change brings a
    rank-2 or rank-3 tensor to `[rows, cols(, channels)]`. */
module ConventionMatch {
  import opened Failures
  import opened Layout
  import opened TensorWithConvention

  /** What the conversion does to the tensor's axes: `shallow_clone` or `f_permute(order)`. */
  datatype Axes = Keep | Permute(order: seq<nat>)

  /** The outcome of the convention match: the axis change and `[channels, rows, cols]`. */
  datatype Resolved = Resolved(axes: Axes, channels: nat, rows: nat, cols: nat)

  predicate IsPermutation(order: seq<nat>, rank: nat)
  {
    && |order| == rank
    && (forall i :: 0 <= i < rank ==> order[i] < rank)
    && (forall i, j :: 0 <= i < j < rank ==> order[i] != order[j])
  }

  /** The size after `f_permute(order)`: axis `i` of the result is axis `order[i]` of the input. */
  function PermuteSize(size: seq<nat>, order: seq<nat>): seq<nat>
    requires IsPermutation(order, |size|)
  {
    seq(|order|, i requires 0 <= i < |order| => size[order[i]])
  }

  function ApplyAxes(size: seq<nat>, axes: Axes): seq<nat>
    requires axes.Permute? ==> IsPermutation(axes.order, |size|)
  {
    match axes
    case Keep => size
    case Permute(order) => PermuteSize(size, order)
  }

  /** The convention match of the `TensorAsImage` conversion. It accepts exactly the rank-2
      and rank-3 sizes, picks a permutation (or no change) of the tensor's axes, and gives a
      rank-2 tensor one channel. */
  function Resolve(size: seq<nat>, convention: ShapeConvention): (r: Result<Resolved>)
    ensures r.Ok? <==> |size| == 2 || |size| == 3
    ensures r.Err? ==> r.error == UnsupportedTensorShape(size)
    ensures r.Ok? && r.value.axes.Permute? ==> IsPermutation(r.value.axes.order, |size|)
    ensures r.Ok? && |size| == 2 ==> r.value.channels == 1
  {
    if |size| == 2 then
      match convention
      case Whc => Ok(Resolved(Permute([1, 0]), 1, size[1], size[0]))
      case Hwc => Ok(Resolved(Keep, 1, size[0], size[1]))
      case Cwh => Ok(Resolved(Permute([1, 0]), 1, size[1], size[0]))
      case Chw => Ok(Resolved(Keep, 1, size[0], size[1]))
    else if |size| == 3 then
      match convention
      case Whc => Ok(Resolved(Permute([1, 0, 2]), size[2], size[1], size[0]))
      case Hwc => Ok(Resolved(Keep, size[2], size[0], size[1]))
      case Cwh => Ok(Resolved(Permute([2, 1, 0]), size[0], size[2], size[1]))
      case Chw => Ok(Resolved(Permute([1, 2, 0]), size[0], size[1], size[2]))
    else
      Err(UnsupportedTensorShape(size))
  }

  /** The canonical image size the match reports: `[rows, cols]` for rank 2 and
      `[rows, cols, channels]` for rank 3. */
  function CanonicalSize(size: seq<nat>, convention: ShapeConvention): seq<nat>
    requires |size| == 2 || |size| == 3
  {
    var r := Resolve(size, convention).value;
    if |size| == 2 then [r.rows, r.cols] else [r.rows, r.cols, r.channels]
  }

  /** The axis change the match picks brings the tensor to its canonical image size. */
  lemma ResolvedAxesCanonical(size: seq<nat>, convention: ShapeConvention)
    requires |size| == 2 || |size| == 3
    ensures ApplyAxes(size, Resolve(size, convention).value.axes) == CanonicalSize(size, convention)
  {
    var canonical := ApplyAxes(size, Resolve(size, convention).value.axes);
    if |size| == 2 {
      assert canonical == [canonical[0], canonical[1]];
    } else {
      assert canonical == [canonical[0], canonical[1], canonical[2]];
    }
  }

  /** The position of an image axis among at most three tensor axes. */
  function PositionOf(axes: seq<Axis>, a: Axis): (p: nat)
    requires a in axes && |axes| <= 3
    ensures p < |axes| && axes[p] == a
  {
    if axes[0] == a then 0 else if axes[1] == a then 1 else 2
  }

  /** The match reads the axes as the convention's name says: rows come from the H axis,
      cols from the W axis, channels from the C axis (or are 1 when there is none), and the
      tensor is left as it is exactly when it is already in H, W(, C) order. */
  lemma ResolveFollowsConvention(size: seq<nat>, convention: ShapeConvention)
    requires |size| == 2 || |size| == 3
    ensures var axes := AxesOfRank(convention, |size|);
      && H in axes && W in axes && |axes| == |size|
      && var r := Resolve(size, convention).value;
      && r.rows == size[PositionOf(axes, H)]
      && r.cols == size[PositionOf(axes, W)]
      && r.channels == (if C in axes then size[PositionOf(axes, C)] else 1)
      && (r.axes.Keep? <==> axes == [H, W, C][..|size|])
  {
    assert [H, W, C][..2] == [H, W] && [H, W, C][..3] == [H, W, C];
    match convention
    case Whc =>
      if |size| == 2 {
        assert AxesOfRank(convention, 2) == [W, H];
        assert Resolve(size, convention).value == Resolved(Permute([1, 0]), 1, size[1], size[0]);
      } else {
        assert AxesOfRank(convention, 3) == [W, H, C];
        assert Resolve(size, convention).value == Resolved(Permute([1, 0, 2]), size[2], size[1], size[0]);
      }
    case Hwc =>
      if |size| == 2 {
        assert AxesOfRank(convention, 2) == [H, W];
        assert Resolve(size, convention).value == Resolved(Keep, 1, size[0], size[1]);
      } else {
        assert AxesOfRank(convention, 3) == [H, W, C];
        assert Resolve(size, convention).value == Resolved(Keep, size[2], size[0], size[1]);
      }
    case Chw =>
      if |size| == 2 {
        assert AxesOfRank(convention, 2) == [H, W];
        assert Resolve(size, convention).value == Resolved(Keep, 1, size[0], size[1]);
      } else {
        assert AxesOfRank(convention, 3) == [C, H, W];
        assert Resolve(size, convention).value == Resolved(Permute([1, 2, 0]), size[0], size[1], size[2]);
      }
    case Cwh =>
      if |size| == 2 {
        assert AxesOfRank(convention, 2) == [W, H];
        assert Resolve(size, convention).value == Resolved(Permute([1, 0]), 1, size[1], size[0]);
      } else {
        assert AxesOfRank(convention, 3) == [C, W, H];
        assert Resolve(size, convention).value == Resolved(Permute([2, 1, 0]), size[0], size[2], size[1]);
      }
  }

  /** Where an image axis sits in the canonical `[rows, cols, channels]` order. */
  function CanonicalPosition(a: Axis): nat
  {
    match a
    case H => 0
    case W => 1
    case C => 2
  }

  /** For an index into the canonical image, the index into the tensor as stored under the
      convention: tensor axis `p` carries the coordinate of the image axis the convention's
      name puts at `p`. */
  function SourceIndex(convention: ShapeConvention, idx: seq<int>): (src: seq<int>)
    requires |idx| == 2 || |idx| == 3
    ensures |src| == |idx|
  {
    var axes := AxesOfRank(convention, |idx|);
    var coordinate := (a: Axis) => if CanonicalPosition(a) < |idx| then idx[CanonicalPosition(a)] else 0;
    if |idx| == 2 then [coordinate(axes[0]), coordinate(axes[1])]
    else [coordinate(axes[0]), coordinate(axes[1]), coordinate(axes[2])]
  }

  /** The axis change the match picks reads the right element: every index of the canonical
      image is in range of the stored tensor at `SourceIndex`, and `f_permute(order)` (whose
      result at `idx` is the input at the index `j` with `j[order[i]] == idx[i]`) or the
      unchanged tensor reads exactly that element. */
  lemma ConventionIndexMap(size: seq<nat>, convention: ShapeConvention, idx: seq<int>)
    requires |size| == 2 || |size| == 3
    requires InBounds(idx, CanonicalSize(size, convention))
    ensures InBounds(SourceIndex(convention, idx), size)
    ensures Resolve(size, convention).value.axes.Keep? ==> SourceIndex(convention, idx) == idx
    ensures var axes := Resolve(size, convention).value.axes;
      axes.Permute? ==>
        forall i :: 0 <= i < |idx| ==> SourceIndex(convention, idx)[axes.order[i]] == idx[i]
  {
    var src := SourceIndex(convention, idx);
    if |size| == 2 {
      match convention
      case Whc => assert src == [idx[1], idx[0]];
      case Hwc => assert src == [idx[0], idx[1]];
      case Chw => assert src == [idx[0], idx[1]];
      case Cwh => assert src == [idx[1], idx[0]];
    } else {
      match convention
      case Whc => assert src == [idx[1], idx[0], idx[2]];
      case Hwc => assert src == [idx[0], idx[1], idx[2]];
      case Chw => assert src == [idx[2], idx[0], idx[1]];
      case Cwh => assert src == [idx[2], idx[1], idx[0]];
    }
  }

  /** The number of elements does not change when the match moves axes. */
  lemma ResolvedCount(size: seq<nat>, convention: ShapeConvention)
    requires Resolve(size, convention).Ok?
    ensures var r := Resolve(size, convention).value;
      Product(size) == r.rows * r.cols * r.channels
  {
    if |size| == 2 {
      ProductOfThree(size[0], size[1], 0);
      assert size == [size[0], size[1]];
    } else {
      ProductOfThree(size[0], size[1], size[2]);
      assert size == [size[0], size[1], size[2]];
    }
  }
}
