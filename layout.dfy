/** Shapes and row-major strides: how a contiguous buffer is read as an n-dimensional array. */
module Layout {

  /** The number of elements of a shape (the empty shape has one). */
  function Product(shape: seq<int>): int
  {
    if shape == [] then 1 else shape[0] * Product(shape[1..])
  }

  /** Row-major strides, in elements: axis `i` steps over every element of the later axes. */
  function SuffixStrides(shape: seq<int>): seq<int>
  {
    seq(|shape|, i requires 0 <= i < |shape| => Product(shape[i + 1..]))
  }

  lemma ProductAt(shape: seq<int>, i: nat)
    requires i < |shape|
    ensures Product(shape[i..]) == shape[i] * Product(shape[i + 1..])
  {
    assert shape[i..][1..] == shape[i + 1..];
  }

  lemma ProductStep(shape: seq<int>, i: nat)
    requires i < |shape|
    ensures Product(shape[i..]) == Product(shape[i + 1..]) * shape[i]
  {
    ProductAt(shape, i);
  }

  lemma ProductOfThree(a: int, b: int, c: int)
    ensures Product([a, b]) == a * b
    ensures Product([a, b, c]) == a * b * c
  {
    assert [a, b][1..] == [b] && [b][1..] == [];
    assert [a, b, c][1..] == [b, c] && [b, c][1..] == [c] && [c][1..] == [];
    assert Product([b]) == b && Product([c]) == c;
    assert Product([b, c]) == b * c;
    assert Product([a, b, c]) == a * (b * c);
  }

  lemma ProductNonNegative(shape: seq<nat>)
    ensures Product(shape) >= 0
  {
    if shape != [] {
      ProductNonNegative(shape[1..]);
    }
  }

  lemma ProductAppend(shape: seq<int>, x: int)
    ensures Product(shape + [x]) == Product(shape) * x
  {
    if shape == [] {
      assert [] + [x] == [x];
    } else {
      assert (shape + [x])[1..] == shape[1..] + [x];
      ProductAppend(shape[1..], x);
    }
  }

  /** The strides form the recurrence the source's scan computes: the channel (last) axis has
      stride 1 and each stride is the next stride times the next extent. */
  lemma {:induction false} StridesRecurrence(shape: seq<int>)
    requires |shape| > 0
    ensures |SuffixStrides(shape)| == |shape|
    ensures SuffixStrides(shape)[|shape| - 1] == 1
    ensures forall i :: 0 <= i < |shape| - 1 ==>
      SuffixStrides(shape)[i] == SuffixStrides(shape)[i + 1] * shape[i + 1]
  {
    var strides := SuffixStrides(shape);
    assert shape[|shape|..] == [];
    forall i | 0 <= i < |shape| - 1
      ensures strides[i] == strides[i + 1] * shape[i + 1]
    {
      ProductStep(shape, i + 1);
    }
  }

  /** The stride vector built for `Tensor::f_of_blob`: a scan over the reversed shape that
      yields the running product before multiplying it by the extent, collected into a
      vector that is then reversed in place. */
  method RowMajorStrides(shape: seq<int>) returns (strides: seq<int>)
    ensures strides == SuffixStrides(shape)
  {
    var n := |shape|;
    var acc := new int[n];
    var prev := 1;
    var k := 0;
    while k < n
      invariant 0 <= k <= n
      invariant prev == Product(shape[n - k..])
      invariant forall j :: 0 <= j < k ==> acc[j] == Product(shape[n - j..])
    {
      var dim := shape[n - 1 - k];
      acc[k] := prev;
      ScanStep(shape, k, prev);
      prev := prev * dim;
      k := k + 1;
    }
    Reverse(acc);
    strides := acc[..];
    forall j | 0 <= j < n
      ensures strides[j] == SuffixStrides(shape)[j]
    {
      assert strides[j] == Product(shape[n - (n - 1 - j)..]);
    }
  }

  /** `Vec::reverse`: the element at `j` moves to `n - 1 - j`, in place. */
  method Reverse(a: array<int>)
    modifies a
    ensures forall j :: 0 <= j < a.Length ==> a[j] == old(a[a.Length - 1 - j])
  {
    var n := a.Length;
    var lo, hi := 0, n - 1;
    while lo < hi
      invariant 0 <= lo && hi == n - 1 - lo && lo <= n
      invariant forall j :: 0 <= j < lo ==> a[j] == old(a[n - 1 - j])
      invariant forall j :: hi < j < n ==> a[j] == old(a[n - 1 - j])
      invariant forall j :: lo <= j <= hi ==> a[j] == old(a[j])
    {
      a[lo], a[hi] := a[hi], a[lo];
      lo, hi := lo + 1, hi - 1;
    }
  }

  /** One step of the scan: the accumulator times the next extent (from the back) is the
      product of the longer suffix. */
  lemma ScanStep(shape: seq<int>, k: nat, prev: int)
    requires k < |shape| && prev == Product(shape[|shape| - k..])
    ensures prev * shape[|shape| - 1 - k] == Product(shape[|shape| - 1 - k..])
  {
    ProductStep(shape, |shape| - 1 - k);
  }

  /** The element offset that strides give to an index. */
  function Offset(idx: seq<int>, strides: seq<int>): int
    requires |idx| == |strides|
  {
    if idx == [] then 0 else idx[0] * strides[0] + Offset(idx[1..], strides[1..])
  }

  predicate InBounds(idx: seq<int>, shape: seq<int>)
  {
    |idx| == |shape| && forall i :: 0 <= i < |idx| ==> 0 <= idx[i] < shape[i]
  }

  lemma SuffixStridesTail(shape: seq<int>)
    requires |shape| > 0
    ensures SuffixStrides(shape)[0] == Product(shape[1..])
    ensures SuffixStrides(shape)[1..] == SuffixStrides(shape[1..])
  {
    forall i | 0 <= i < |shape| - 1
      ensures SuffixStrides(shape)[1..][i] == SuffixStrides(shape[1..])[i]
    {
      assert shape[1..][i + 1..] == shape[i + 2..];
    }
  }

  lemma MulStep(a: int, p: int, x: int, n: int)
    requires 0 <= a < n && 0 <= x < p
    ensures 0 <= a * p + x < n * p
  {
    MulMonotone(a, n - 1, p);
    assert (n - 1) * p + p == n * p;
  }

  /** Every index inside the shape reads an element inside the buffer: the row-major view of
      a contiguous block never reaches past its `Product(shape)` elements. */
  lemma {:induction false} OffsetWithinBuffer(shape: seq<int>, idx: seq<int>)
    requires InBounds(idx, shape)
    ensures 0 <= Offset(idx, SuffixStrides(shape)) < Product(shape)
  {
    if shape != [] {
      var strides := SuffixStrides(shape);
      SuffixStridesTail(shape);
      assert InBounds(idx[1..], shape[1..]);
      OffsetWithinBuffer(shape[1..], idx[1..]);
      MulStep(idx[0], Product(shape[1..]), Offset(idx[1..], strides[1..]), shape[0]);
    }
  }

  lemma MulMonotone(a: int, b: int, p: int)
    requires a <= b && 0 <= p
    ensures a * p <= b * p
  {
    assert b * p == a * p + (b - a) * p;
  }

  lemma MulCancel(a: int, b: int, p: int, x: int, y: int)
    requires 0 <= a && 0 <= b && 0 <= x < p && 0 <= y < p
    requires a * p + x == b * p + y
    ensures a == b && x == y
  {
    if a < b {
      MulMonotone(a + 1, b, p);
    } else if b < a {
      MulMonotone(b + 1, a, p);
    }
  }

  /** Distinct indices read distinct elements: together with OffsetWithinBuffer, the row-major
      view is a one-to-one reading of the buffer. */
  lemma {:induction false} OffsetInjective(shape: seq<int>, a: seq<int>, b: seq<int>)
    requires InBounds(a, shape) && InBounds(b, shape)
    requires Offset(a, SuffixStrides(shape)) == Offset(b, SuffixStrides(shape))
    ensures a == b
  {
    if shape != [] {
      var strides := SuffixStrides(shape);
      SuffixStridesTail(shape);
      assert InBounds(a[1..], shape[1..]) && InBounds(b[1..], shape[1..]);
      OffsetWithinBuffer(shape[1..], a[1..]);
      OffsetWithinBuffer(shape[1..], b[1..]);
      MulCancel(a[0], b[0], Product(shape[1..]),
        Offset(a[1..], strides[1..]), Offset(b[1..], strides[1..]));
      OffsetInjective(shape[1..], a[1..], b[1..]);
      assert a == [a[0]] + a[1..] && b == [b[0]] + b[1..];
    }
  }

  lemma {:induction false} ProductMonotone(a: seq<int>, b: seq<int>)
    requires |a| == |b|
    requires forall i :: 0 <= i < |a| ==> 0 <= a[i] <= b[i]
    ensures 0 <= Product(a) <= Product(b)
  {
    if a != [] {
      ProductMonotone(a[1..], b[1..]);
      MulMonotone(a[0], b[0], Product(a[1..]));
      MulMonotone(Product(a[1..]), Product(b[1..]), b[0]);
    }
  }
}
