/** The pixel matrix of src/cme.ts: loadImageAsMatrix regroups a decoded,
    channel-interleaved byte buffer into one array of normalised samples per
    pixel. */
module CmeMatrix {
  import opened Types

  /** What loadImageAsMatrix returns: the decoder's dimensions and channel
      count, and the pixels, each a sequence of `channels` samples in [0, 1]. */
  datatype Matrix = Matrix(width: nat, height: nat, channels: nat, pixels: seq<seq<real>>)

  /** A byte normalised to [0, 1]. */
  function Normalise(b: Byte): (r: real)
    ensures 0.0 <= r <= 1.0
  {
    b as real / 255.0
  }

  /** The first k pixels regroup `data` with `channels` samples per pixel:
      sample c of pixel k is byte k*channels + c, normalised. */
  predicate Regrouped(pixels: seq<seq<real>>, data: seq<Byte>, channels: nat) {
    forall k :: 0 <= k < |pixels| ==>
      |pixels[k]| == channels &&
      forall c :: 0 <= c < channels ==>
        k * channels + c < |data| && pixels[k][c] == Normalise(data[k * channels + c])
  }

  /** A matrix as loadImageAsMatrix builds it: one pixel per width*height,
      `channels` samples in [0, 1] per pixel. */
  predicate ValidMatrix(m: Matrix) {
    0 < m.channels && |m.pixels| == m.width * m.height && UnitSamples(m.pixels, m.channels)
  }

  /** Every pixel has `channels` samples in [0, 1]. */
  predicate UnitSamples(img: seq<seq<real>>, channels: nat) {
    forall i :: 0 <= i < |img| ==>
      |img[i]| == channels && forall c :: 0 <= c < channels ==> 0.0 <= img[i][c] <= 1.0
  }

  /** The pixel after k full pixels ends inside a buffer of `count` pixels. */
  lemma NextPixelFits(k: nat, count: nat, channels: nat)
    requires k < count
    ensures k * channels + channels <= count * channels
  {
    var rest := count - (k + 1);
    assert 0 <= rest * channels;
    assert k * channels + channels + rest * channels == count * channels;
  }

  /** Appending the pixel regrouped from the next `channels` bytes keeps the
      regrouping. */
  lemma RegroupedSnoc(pixels: seq<seq<real>>, pixel: seq<real>, data: seq<Byte>, channels: nat)
    requires Regrouped(pixels, data, channels) && |pixel| == channels
    requires |pixels| * channels + channels <= |data|
    requires forall j :: 0 <= j < channels ==> pixel[j] == Normalise(data[|pixels| * channels + j])
    ensures Regrouped(pixels + [pixel], data, channels)
  {
    var next := pixels + [pixel];
    forall k | 0 <= k < |next|
      ensures |next[k]| == channels
      ensures forall c :: 0 <= c < channels ==>
                k * channels + c < |data| && next[k][c] == Normalise(data[k * channels + c])
    {
      if k == |pixels| {
        assert next[k] == pixel;
      } else {
        assert next[k] == pixels[k];
      }
    }
  }

  /** loadImageAsMatrix, after the decoder: step through the buffer
      `channels` bytes at a time and push one normalised pixel per step. The
      decoder delivers width*height*channels bytes with at least one channel. */
  method LoadImageAsMatrix(width: nat, height: nat, channels: nat, data: seq<Byte>) returns (m: Matrix)
    requires 0 < channels && |data| == width * height * channels
    ensures m.width == width && m.height == height && m.channels == channels
    ensures |m.pixels| == width * height
    ensures Regrouped(m.pixels, data, channels)
    ensures ValidMatrix(m)
  {
    var count := width * height;
    var pixels: seq<seq<real>> := [];
    var i := 0;
    while i < |data|
      invariant |pixels| <= count && i == |pixels| * channels
      invariant Regrouped(pixels, data, channels)
      decreases |data| - i
    {
      NextPixelFits(|pixels|, count, channels);
      var pixel: seq<real> := [];
      for c := 0 to channels
        invariant |pixel| == c
        invariant forall j :: 0 <= j < c ==> pixel[j] == Normalise(data[i + j])
      {
        pixel := pixel + [Normalise(data[i + c])];
      }
      RegroupedSnoc(pixels, pixel, data, channels);
      pixels := pixels + [pixel];
      i := i + channels;
    }
    if |pixels| < count {
      NextPixelFits(|pixels|, count, channels);
    }
    m := Matrix(width, height, channels, pixels);
  }
}
