/** `TensorFromMat`: a tensor view that borrows the data of a `Mat` it owns. */
module TensorFromMat {
  import opened Tch
  import opened Cv
  import opened Layout
  import opened MatExt

  /** The two halves of the pair, in the order they are released. */
  datatype Part = View | Owner

  /** The view reads the whole of the owner's data as a row-major tensor (one-to-one and onto,
      by OffsetInjective and IndexOfOffset): its size and kind are the owner's n-d shape and
      kind, its strides the row-major ones. */
  ghost predicate ViewsAllOf(tensor: Tensor, strides: seq<int>, mat: Mat)
  {
    && mat.continuous
    && KindShapeNd(mat) == Failures.Ok((tensor.kind, tensor.size))
    && strides == SuffixStrides(tensor.size)
  }

  /** The pair built by the zero-copy conversion. `viewLive` and `ownerLive` stand for the two
      `ManuallyDrop` fields not yet dropped; `released` records the drops in order. */
  class TensorFromMat {
    const tensor: Tensor
    const strides: seq<int>
    const mat: Mat
    var viewLive: bool
    var ownerLive: bool
    ghost var released: seq<Part>

    /** The view never outlives the owner, and each part is released at most once, view first. */
    ghost predicate Valid()
      reads this
    {
      && ViewsAllOf(tensor, strides, mat)
      && (viewLive ==> ownerLive)
      && released == (if viewLive then [] else if ownerLive then [View] else [View, Owner])
    }

    constructor (tensor: Tensor, strides: seq<int>, mat: Mat)
      requires ViewsAllOf(tensor, strides, mat)
      ensures Valid() && viewLive && ownerLive && released == []
      ensures this.tensor == tensor && this.strides == strides && this.mat == mat
    {
      this.tensor := tensor;
      this.strides := strides;
      this.mat := mat;
      viewLive, ownerLive := true, true;
      released := [];
    }

    /** `TensorFromMat::tensor`: the borrowed view, available only while the pair is alive;
        its size is the owner's shape with the channel axis last. */
    method Tensor() returns (t: Tensor)
      requires Valid() && viewLive
      ensures t == tensor
      ensures |t.size| == |mat.sizes| + 1 && t.size[..|mat.sizes|] == mat.sizes
      ensures t.size[|mat.sizes|] == Channels(mat.typ)
    {
      t := tensor;
    }

    /** `ManuallyDrop::drop(&mut self.tensor)`. */
    method ReleaseView()
      requires Valid() && viewLive
      modifies this
      ensures Valid() && !viewLive && ownerLive
      ensures released == old(released) + [View]
    {
      viewLive := false;
      released := released + [View];
    }

    /** `ManuallyDrop::drop(&mut self.mat)`: only once the view is gone. */
    method ReleaseOwner()
      requires Valid() && !viewLive && ownerLive
      modifies this
      ensures Valid() && !viewLive && !ownerLive
      ensures released == old(released) + [Owner]
    {
      ownerLive := false;
      released := released + [Owner];
    }

    /** `Drop::drop`: releases the view and then the owner, each exactly once. */
    method Drop()
      requires Valid() && viewLive
      modifies this
      ensures Valid() && !viewLive && !ownerLive
      ensures released == old(released) + [View, Owner]
      ensures multiset(released)[View] == 1 && multiset(released)[Owner] == 1
    {
      ReleaseView();
      ReleaseOwner();
    }
  }
}
