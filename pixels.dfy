/** The conversion of grayscale pixel buffers to RGBA that `load_internal`
    does by hand after PNG decoding (src/icon.rs:228-268): the decoder's own
    transformations expand palettes and add alpha, but leave gray as gray. */
module Pixels {
  import opened Common

  const U32_LIMIT: nat := 0x1_0000_0000

  /** The color types the PNG decoder reports (section 11.2.2 of the PNG
      Specification). */
  datatype ColorType = Grayscale | Rgb | Indexed | GrayscaleAlpha | Rgba

  /** Byte `i` of the RGBA form of a gray-and-alpha buffer: three copies of
      the gray byte of pixel `i / 4`, then its alpha byte. */
  function GrayAlphaByte(src: seq<byte>, i: nat): byte
    requires (i / 4) * 2 + 1 < |src|
  {
    if i % 4 == 3 then src[(i / 4) * 2 + 1] else src[(i / 4) * 2]
  }

  /** Byte `i` of the RGBA form of a gray buffer: three copies of the gray
      byte of pixel `i / 4`, then an opaque alpha. */
  function GrayByte(src: seq<byte>, i: nat): byte
    requires i / 4 < |src|
  {
    if i % 4 == 3 then 255 else src[i / 4]
  }

  lemma GrayAlphaQuad(src: seq<byte>, c: nat)
    requires 2 * c + 1 < |src|
    ensures GrayAlphaByte(src, 4 * c) == src[2 * c] && GrayAlphaByte(src, 4 * c + 1) == src[2 * c]
    ensures GrayAlphaByte(src, 4 * c + 2) == src[2 * c] && GrayAlphaByte(src, 4 * c + 3) == src[2 * c + 1]
  {
  }

  lemma GrayQuad(src: seq<byte>, p: nat)
    requires p < |src|
    ensures GrayByte(src, 4 * p) == src[p] && GrayByte(src, 4 * p + 1) == src[p]
    ensures GrayByte(src, 4 * p + 2) == src[p] && GrayByte(src, 4 * p + 3) == 255
  {
  }

  /** The `GrayscaleAlpha` arm: after the length check, every two-byte chunk
      (gray, alpha) becomes the four bytes (gray, gray, gray, alpha). The
      sizes are `u32` products that panic on overflow, and the buffer length
      is cast to `u32` before the comparison. */
  method ExpandGrayAlpha(rgba_buf: seq<byte>, width: u32, height: u32) returns (r: Result<seq<byte>>)
    ensures width * height * 2 >= U32_LIMIT ==> r == Err(Panic)
    ensures width * height * 2 < U32_LIMIT && |rgba_buf| % U32_LIMIT != width * height * 2 ==> r == Err(Generic)
    ensures r.Ok? <==> width * height * 4 < U32_LIMIT && |rgba_buf| % U32_LIMIT == width * height * 2
    ensures r.Ok? ==> |r.value| == 2 * |rgba_buf|
    ensures r.Ok? ==> forall i :: 0 <= i < |r.value| ==> r.value[i] == GrayAlphaByte(rgba_buf, i)
  {
    if width * height * 2 >= U32_LIMIT {
      return Err(Panic);
    }
    if |rgba_buf| % U32_LIMIT != width * height * 2 {
      return Err(Generic);
    }
    if width * height * 4 >= U32_LIMIT {
      return Err(Panic);
    }
    assert |rgba_buf| % 2 == 0;
    var new_buf: seq<byte> := [];
    var chunk := 0;
    while chunk < |rgba_buf| / 2
      invariant chunk <= |rgba_buf| / 2
      invariant |new_buf| == 4 * chunk
      invariant forall i :: 0 <= i < |new_buf| ==> new_buf[i] == GrayAlphaByte(rgba_buf, i)
    {
      var gray := rgba_buf[2 * chunk];
      var alpha := rgba_buf[2 * chunk + 1];
      GrayAlphaQuad(rgba_buf, chunk);
      new_buf := new_buf + [gray, gray, gray, alpha];
      chunk := chunk + 1;
    }
    return Ok(new_buf);
  }

  /** The `Grayscale` arm: every gray byte becomes (gray, gray, gray, 255). */
  method ExpandGray(rgba_buf: seq<byte>, width: u32, height: u32) returns (r: Result<seq<byte>>)
    ensures width * height >= U32_LIMIT ==> r == Err(Panic)
    ensures width * height < U32_LIMIT && |rgba_buf| % U32_LIMIT != width * height ==> r == Err(Generic)
    ensures r.Ok? <==> width * height * 4 < U32_LIMIT && |rgba_buf| % U32_LIMIT == width * height
    ensures r.Ok? ==> |r.value| == 4 * |rgba_buf|
    ensures r.Ok? ==> forall i :: 0 <= i < |r.value| ==> r.value[i] == GrayByte(rgba_buf, i)
  {
    if width * height >= U32_LIMIT {
      return Err(Panic);
    }
    if |rgba_buf| % U32_LIMIT != width * height {
      return Err(Generic);
    }
    if width * height * 4 >= U32_LIMIT {
      return Err(Panic);
    }
    var new_buf: seq<byte> := [];
    for p := 0 to |rgba_buf|
      invariant |new_buf| == 4 * p
      invariant forall i :: 0 <= i < |new_buf| ==> new_buf[i] == GrayByte(rgba_buf, i)
    {
      var gray := rgba_buf[p];
      GrayQuad(rgba_buf, p);
      new_buf := new_buf + [gray, gray, gray, 255];
    }
    return Ok(new_buf);
  }

  /** The match on the decoded color type: gray buffers are expanded, RGBA
      is kept, anything else is refused. */
  method ToRgba(color_type: ColorType, rgba_buf: seq<byte>, width: u32, height: u32) returns (r: Result<seq<byte>>)
    ensures color_type == Rgba ==> r == Ok(rgba_buf)
    ensures color_type == Rgb || color_type == Indexed ==> r == Err(Generic)
    ensures r.Ok? && color_type == GrayscaleAlpha ==> |r.value| == 2 * |rgba_buf|
    ensures r.Ok? && color_type == Grayscale ==> |r.value| == 4 * |rgba_buf|
  {
    match color_type {
      case GrayscaleAlpha =>
        r := ExpandGrayAlpha(rgba_buf, width, height);
      case Grayscale =>
        r := ExpandGray(rgba_buf, width, height);
      case Rgba =>
        r := Ok(rgba_buf);
      case _ =>
        r := Err(Generic);
    }
  }

  /** Gray values and alphas survive the expansion: reading channel 0 and 3
      of pixel `p` gives back the source pixel. */
  lemma GrayAlphaChannels(src: seq<byte>, out: seq<byte>, p: nat)
    requires |src| % 2 == 0 && |out| == 2 * |src|
    requires forall i :: 0 <= i < |out| ==> out[i] == GrayAlphaByte(src, i)
    requires p < |src| / 2
    ensures out[4 * p] == out[4 * p + 1] == out[4 * p + 2] == src[2 * p]
    ensures out[4 * p + 3] == src[2 * p + 1]
  {
    assert GrayAlphaByte(src, 4 * p) == src[2 * p];
    assert GrayAlphaByte(src, 4 * p + 1) == src[2 * p];
    assert GrayAlphaByte(src, 4 * p + 2) == src[2 * p];
    assert GrayAlphaByte(src, 4 * p + 3) == src[2 * p + 1];
  }
}
