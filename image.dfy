/** The preprocessing helpers of src/utils/image.ts that run on decoded
    buffers: RGBA-to-luma conversion, extraction of the first channel of a
    decoded greyscale image, and the size guard every pairwise metric calls. */
module Image {
  import opened Types
  import opened JsMath

  /** The exact luma of an RGBA pixel, Y = 0.299 R + 0.587 G + 0.114 B
      (Recommendation ITU-R BT.601, Part A, item 2.5.1). */
  function WeightedLuma(r: Byte, g: Byte, b: Byte): real {
    0.299 * r as real + 0.587 * g as real + 0.114 * b as real
  }

  /** The luma sample the conversion stores: Math.round of the weighted sum.
      The weights are positive and add up to 1, so the sample lies between the
      darkest and the brightest channel (hence in 0..255), and a grey pixel
      keeps its value. */
  function Luma(r: Byte, g: Byte, b: Byte): (y: int)
    ensures y as real - 0.5 <= WeightedLuma(r, g, b) < y as real + 0.5
    ensures Min(r, Min(g, b)) <= y <= Max(r, Max(g, b))
    ensures r == g == b ==> y == r
  {
    Round(WeightedLuma(r, g, b))
  }

  /** toGrayscaleFromRGBA: one luma sample per RGBA pixel, written into a
      fresh zero-filled Uint8ClampedArray; the alpha sample is never read. */
  method ToGrayscaleFromRGBA(img: ImageDataLike) returns (gray: ImageDataLike)
    requires |img.data| == 4 * Area(img)
    ensures gray.width == img.width && gray.height == img.height
    ensures |gray.data| == Area(img)
    ensures forall j :: 0 <= j < |gray.data| ==>
              gray.data[j] == Luma(img.data[4 * j], img.data[4 * j + 1], img.data[4 * j + 2])
  {
    var n := Area(img);
    var out := new Byte[n];
    var i, j := 0, 0;
    while i < |img.data|
      invariant i == 4 * j && j <= n
      invariant forall k :: 0 <= k < j ==>
                  out[k] == Luma(img.data[4 * k], img.data[4 * k + 1], img.data[4 * k + 2])
    {
      var r, g, b := img.data[i], img.data[i + 1], img.data[i + 2];
      out[j] := ClampByte(Luma(r, g, b));
      i, j := i + 4, j + 1;
    }
    gray := ImageDataLike(img.width, img.height, out[..]);
  }

  /** The loop of loadImageGray: the decoder has already made the image grey
      and added alpha, so sample j of the result is the red sample of pixel j. */
  method ExtractGrayChannel(width: nat, height: nat, data: seq<Byte>) returns (gray: ImageDataLike)
    requires |data| == 4 * (width * height)
    ensures gray.width == width && gray.height == height
    ensures |gray.data| == width * height
    ensures forall j :: 0 <= j < |gray.data| ==> gray.data[j] == data[4 * j]
  {
    var out := new Byte[width * height];
    var i, j := 0, 0;
    while i < |data|
      invariant i == 4 * j && j <= width * height
      invariant forall k :: 0 <= k < j ==> out[k] == data[4 * k]
    {
      out[j] := data[i];
      i, j := i + 4, j + 1;
    }
    gray := ImageDataLike(width, height, out[..]);
  }

  /** assertSameSize: fails, naming both (width x height) pairs, exactly when
      the widths or the heights differ; otherwise it has no effect. */
  function AssertSameSize(a: ImageDataLike, b: ImageDataLike): (o: Outcome)
    ensures o.Pass? <==> SameSize(a, b)
    ensures o.Fail? ==> o.error == SizeMismatch(a.width, a.height, b.width, b.height)
  {
    if a.width != b.width || a.height != b.height then
      Fail(SizeMismatch(a.width, a.height, b.width, b.height))
    else
      Pass
  }
}
