/** Addresses in a row-major buffer: which index reads a given element, and how strides
    scale to bytes and extend by a trailing channel axis. */
module Addressing {
  import opened Layout

  /** Every element of the buffer is read by some in-range index: the offset decomposed into
      one coordinate per axis, most significant first. With OffsetInjective, the row-major
      view reads the buffer one-to-one and onto. */
  function IndexOfOffset(shape: seq<nat>, o: int): (idx: seq<int>)
    requires 0 <= o < Product(shape)
    ensures InBounds(idx, shape) && Offset(idx, SuffixStrides(shape)) == o
  {
    if shape == [] then []
    else
      var p := Product(shape[1..]);
      ProductNonNegative(shape[1..]);
      var q, rem := o / p, o % p;
      var rest := IndexOfOffset(shape[1..], rem);
      var idx := [q] + rest;
      SuffixStridesTail(shape);
      QuotientBelow(o, p, shape[0]);
      assert idx[1..] == rest;
      idx
  }

  lemma QuotientBelow(o: int, p: int, n: int)
    requires 0 <= o < n * p && 0 <= p
    ensures p > 0 && 0 <= o / p < n && o == o / p * p + o % p
  {
    if o / p >= n {
      MulMonotone(n, o / p, p);
    }
  }

  /** Strides scaled by a constant width, as byte steps scale element strides. */
  function Scaled(strides: seq<int>, width: int): (r: seq<int>)
    ensures |r| == |strides|
    ensures forall i :: 0 <= i < |strides| ==> r[i] == strides[i] * width
  {
    seq(|strides|, i requires 0 <= i < |strides| => strides[i] * width)
  }

  /** Reading through scaled strides scales the offset. */
  lemma {:induction false} OffsetScaled(idx: seq<int>, strides: seq<int>, width: int)
    requires |idx| == |strides|
    ensures Offset(idx, Scaled(strides, width)) == Offset(idx, strides) * width
  {
    if idx != [] {
      assert Scaled(strides, width)[1..] == Scaled(strides[1..], width);
      OffsetScaled(idx[1..], strides[1..], width);
      var rest := Offset(idx[1..], strides[1..]);
      assert idx[0] * (strides[0] * width) + rest * width == (idx[0] * strides[0] + rest) * width;
    }
  }

  /** One more axis at the end adds its coordinate times its stride. */
  lemma {:induction false} OffsetAppend(idx: seq<int>, strides: seq<int>, k: int, s: int)
    requires |idx| == |strides|
    ensures Offset(idx + [k], strides + [s]) == Offset(idx, strides) + k * s
  {
    if idx == [] {
      assert [] + [k] == [k] && [] + [s] == [s];
      assert [k][1..] == [] && [s][1..] == [];
    } else {
      assert (idx + [k])[1..] == idx[1..] + [k];
      assert (strides + [s])[1..] == strides[1..] + [s];
      OffsetAppend(idx[1..], strides[1..], k, s);
    }
  }

  /** A trailing axis of extent `c` multiplies every earlier stride by `c` and has stride 1. */
  lemma SuffixStridesAppend(shape: seq<int>, c: int)
    ensures SuffixStrides(shape + [c]) == Scaled(SuffixStrides(shape), c) + [1]
  {
    var n := |shape|;
    forall i | 0 <= i < n
      ensures SuffixStrides(shape + [c])[i] == Scaled(SuffixStrides(shape), c)[i]
    {
      assert (shape + [c])[i + 1..] == shape[i + 1..] + [c];
      ProductAppend(shape[i + 1..], c);
    }
    assert (shape + [c])[n + 1..] == [];
  }

  /** The row-major offset of `pos ++ [k]` in `shape ++ [c]`: `pos`'s offset in `shape`, times
      `c`, plus `k`. */
  lemma TrailingAxisOffset(shape: seq<int>, pos: seq<int>, c: int, k: int)
    requires |pos| == |shape|
    ensures Offset(pos + [k], SuffixStrides(shape + [c])) == Offset(pos, SuffixStrides(shape)) * c + k
  {
    SuffixStridesAppend(shape, c);
    OffsetAppend(pos, Scaled(SuffixStrides(shape), c), k, 1);
    OffsetScaled(pos, SuffixStrides(shape), c);
  }
}
