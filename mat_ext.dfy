/** `MatExt`: the kind and shape a `Mat` has when read as a tensor. */
module MatExt {
  import opened Tch
  import opened Cv
  import opened Failures

  /** The tensor kind of an OpenCV depth, independently of any table: `CV_16U` has none. */
  function DepthKind(depth: int): Option<Kind>
  {
    if depth == CV_8U then Some(Uint8)
    else if depth == CV_8S then Some(Int8)
    else if depth == CV_16S then Some(Int16)
    else if depth == CV_16F then Some(Half)
    else if depth == CV_32S then Some(Int)
    else if depth == CV_32F then Some(Float)
    else if depth == CV_64F then Some(Double)
    else None
  }

  /** The 28-arm match of `tch_kind_shape_2d`: a `Mat` type code to a tensor kind and a
      channel count. The channel count is the one encoded in the code, the kind's scalar is
      exactly one OpenCV channel wide, and every unlisted code is refused. */
  function KindAndChannels(typ: int): (r: Result<(Kind, int)>)
    ensures r.Ok? ==> 0 <= typ < 32 && 1 <= r.value.1 <= 4 && r.value.1 == Channels(typ)
    ensures r.Ok? ==> EltSizeInBytes(r.value.0) == ElemSize1(typ)
    ensures r.Ok? ==> DepthKind(Depth(typ)) == Some(r.value.0)
    ensures r.Err? ==> r.error == UnsupportedMatType(typ)
  {
    if typ == CV_8UC1 then Ok((Uint8, 1))
    else if typ == CV_8UC2 then Ok((Uint8, 2))
    else if typ == CV_8UC3 then Ok((Uint8, 3))
    else if typ == CV_8UC4 then Ok((Uint8, 4))
    else if typ == CV_8SC1 then Ok((Int8, 1))
    else if typ == CV_8SC2 then Ok((Int8, 2))
    else if typ == CV_8SC3 then Ok((Int8, 3))
    else if typ == CV_8SC4 then Ok((Int8, 4))
    else if typ == CV_16SC1 then Ok((Int16, 1))
    else if typ == CV_16SC2 then Ok((Int16, 2))
    else if typ == CV_16SC3 then Ok((Int16, 3))
    else if typ == CV_16SC4 then Ok((Int16, 4))
    else if typ == CV_16FC1 then Ok((Half, 1))
    else if typ == CV_16FC2 then Ok((Half, 2))
    else if typ == CV_16FC3 then Ok((Half, 3))
    else if typ == CV_16FC4 then Ok((Half, 4))
    else if typ == CV_32FC1 then Ok((Float, 1))
    else if typ == CV_32FC2 then Ok((Float, 2))
    else if typ == CV_32FC3 then Ok((Float, 3))
    else if typ == CV_32FC4 then Ok((Float, 4))
    else if typ == CV_32SC1 then Ok((Int, 1))
    else if typ == CV_32SC2 then Ok((Int, 2))
    else if typ == CV_32SC3 then Ok((Int, 3))
    else if typ == CV_32SC4 then Ok((Int, 4))
    else if typ == CV_64FC1 then Ok((Double, 1))
    else if typ == CV_64FC2 then Ok((Double, 2))
    else if typ == CV_64FC3 then Ok((Double, 3))
    else if typ == CV_64FC4 then Ok((Double, 4))
    else Err(UnsupportedMatType(typ))
  }

  /** The table is exactly OpenCV's own encoding: a code is accepted iff it carries one to
      four channels of a depth that has a tensor kind, and then it yields that kind and
      that channel count. */
  lemma KindAndChannelsByEncoding(typ: int)
    ensures KindAndChannels(typ) ==
      if 0 <= typ < 32 && DepthKind(typ % 8).Some?
      then Ok((DepthKind(typ % 8).value, typ / 8 + 1))
      else Err(UnsupportedMatType(typ))
  {
    if 0 <= typ < 32 {
      var depth, cn := typ % 8, typ / 8;
      assert typ == cn * 8 + depth;
      assert 0 <= cn < 4 && 0 <= depth < 8;
      assert cn == 0 || cn == 1 || cn == 2 || cn == 3;
      assert depth in {0, 1, 2, 3, 4, 5, 6, 7};
    }
  }

  /** The 28-arm match of `tch_kind_shape_nd`: the same table with the channel count dropped. */
  function KindOfType(typ: int): (r: Result<Kind>)
    ensures KindAndChannels(typ).Ok? ==> r == Ok(KindAndChannels(typ).value.0)
    ensures KindAndChannels(typ).Err? ==> r == Err(UnsupportedMatType(typ))
  {
    if typ == CV_8UC1 then Ok(Uint8)
    else if typ == CV_8UC2 then Ok(Uint8)
    else if typ == CV_8UC3 then Ok(Uint8)
    else if typ == CV_8UC4 then Ok(Uint8)
    else if typ == CV_8SC1 then Ok(Int8)
    else if typ == CV_8SC2 then Ok(Int8)
    else if typ == CV_8SC3 then Ok(Int8)
    else if typ == CV_8SC4 then Ok(Int8)
    else if typ == CV_16SC1 then Ok(Int16)
    else if typ == CV_16SC2 then Ok(Int16)
    else if typ == CV_16SC3 then Ok(Int16)
    else if typ == CV_16SC4 then Ok(Int16)
    else if typ == CV_16FC1 then Ok(Half)
    else if typ == CV_16FC2 then Ok(Half)
    else if typ == CV_16FC3 then Ok(Half)
    else if typ == CV_16FC4 then Ok(Half)
    else if typ == CV_32FC1 then Ok(Float)
    else if typ == CV_32FC2 then Ok(Float)
    else if typ == CV_32FC3 then Ok(Float)
    else if typ == CV_32FC4 then Ok(Float)
    else if typ == CV_32SC1 then Ok(Int)
    else if typ == CV_32SC2 then Ok(Int)
    else if typ == CV_32SC3 then Ok(Int)
    else if typ == CV_32SC4 then Ok(Int)
    else if typ == CV_64FC1 then Ok(Double)
    else if typ == CV_64FC2 then Ok(Double)
    else if typ == CV_64FC3 then Ok(Double)
    else if typ == CV_64FC4 then Ok(Double)
    else Err(UnsupportedMatType(typ))
  }

  /** `tch_kind_shape_2d`: the kind and the shape `[width, height, channels]` of a 2-d `Mat`. */
  function KindShape2d(m: Mat): (r: Result<(Kind, seq<int>)>)
    ensures r.Ok? <==> KindAndChannels(m.typ).Ok?
    ensures r.Err? ==> r.error == UnsupportedMatType(m.typ)
    ensures r.Ok? ==> r.value.0 == KindAndChannels(m.typ).value.0
    ensures r.Ok? ==> |r.value.1| == 3 && r.value.1[2] == Channels(m.typ)
    ensures r.Ok? && |m.sizes| == 2 ==> r.value.1[0] == m.sizes[1] && r.value.1[1] == m.sizes[0]
  {
    var (width, height) := Size(m);
    var (kind, nChannels) :- KindAndChannels(m.typ);
    Ok((kind, [width, height, nChannels]))
  }

  /** `tch_kind_shape_nd`: the kind and the shape `mat_size ++ [channels]`. */
  function KindShapeNd(m: Mat): (r: Result<(Kind, seq<nat>)>)
    ensures r.Ok? <==> KindAndChannels(m.typ).Ok?
    ensures r.Err? ==> r.error == UnsupportedMatType(m.typ)
    ensures r.Ok? ==> r.value.0 == KindAndChannels(m.typ).value.0
    ensures r.Ok? ==> |r.value.1| == |m.sizes| + 1 && r.value.1[..|m.sizes|] == m.sizes
    ensures r.Ok? ==> r.value.1[|m.sizes|] == KindAndChannels(m.typ).value.1
  {
    var size := m.sizes + [Channels(m.typ)];
    var kind :- KindOfType(m.typ);
    Ok((kind, size))
  }

  /** On a 2-d `Mat` the two shapes agree up to the order of the first two axes: the 2-d
      shape puts the width first. */
  lemma Shape2dSwapsNd(m: Mat)
    requires |m.sizes| == 2 && KindAndChannels(m.typ).Ok?
    ensures KindShape2d(m).value.1 ==
      [KindShapeNd(m).value.1[1], KindShapeNd(m).value.1[0], KindShapeNd(m).value.1[2]]
  {
  }

  /** One tensor scalar per OpenCV channel: a kind from the table times the channel count is
      the element size OpenCV gives the code. */
  lemma ElementWidths(typ: MatType)
    requires KindAndChannels(typ).Ok?
    ensures EltSizeInBytes(KindAndChannels(typ).value.0) * KindAndChannels(typ).value.1 == ElemSize(typ)
  {
  }
}
